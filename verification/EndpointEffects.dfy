/** What an endpoint's own steps come to: what an acknowledgement and a timeout do to its window and its queues,
    what it answers, and how long a packet with a timeout may wait. */
module EndpointEffects {
  import opened Words
  import opened Fragments
  import opened Codec
  import opened Timer
  import opened Mailbox
  import opened Endpoint
  import S = Sending
  import T = SegmentTx
  import R = SegmentRx
  import C = AimdReno
  import CongestionRuns
  import RoundTrip
  import Unreliable
  import Reliable

  // ---- the congestion window ----

  /** An acknowledgement is one event of the congestion window, and a second if the segments show a drop. */
  lemma {:induction false} AckIsRun(s: Sender, ack: StreamAck, now: time)
    requires s.clock.NotBefore(now)
    ensures C.Run(s.cc, if ShowsDrop(s.tx, ack) then [C.Ack, C.Drop] else [C.Ack]) == Some(AckedSender(s, ack, now).cc)
  {
    hide ShowsDrop, C.State.Acked, C.State.Dropped, AckedTx, AckedQueues, Answered;
    C.SafeNeverFails(s.cc);
    C.StepsKeepValid(s.cc);
    C.RunNext(s.cc, [], C.Ack);
    assert [] + [C.Ack] == [C.Ack];
    C.RunNext(s.cc, [C.Ack], C.Drop);
    assert [C.Ack] + [C.Drop] == [C.Ack, C.Drop];
  }

  /** So a drop revealed by an acknowledgement halves the window, unless one did within the last window. */
  lemma {:induction false} DropHalvesWindow(s: Sender, ack: StreamAck, now: time)
    requires s.clock.NotBefore(now) && ShowsDrop(s.tx, ack) && s.cc.dropcnt <= s.cc.mss
    ensures var grown, after := C.Run(s.cc, [C.Ack]), AckedSender(s, ack, now).cc;
      && grown.Some? && after.mode.CongestionAvoidance?
      && C.HalfOf(after.cwnd, grown.value.cwnd, s.cc.Least())
  {
    hide ShowsDrop, AckedSender;
    AckIsRun(s, ack, now);
    CongestionRuns.DropHalves(s.cc, [C.Ack]);
    CongestionRuns.CountsDown(s.cc, 1);
    OneAck();
    assert 1 * s.cc.mss == s.cc.mss;
    assert [C.Ack] + [C.Drop] == [C.Ack, C.Drop];
  }

  lemma {:induction false} OneAck()
    ensures C.Acks(1) == [C.Ack]
  {
    assert C.Acks(0) == [];
  }

  // ---- a timeout ----

  /** After a timeout everything unacknowledged on the reliable channel is sent again from the oldest fragment on,
      as far as the windows allow, whatever had been sent before; the congestion window has had one timeout. */
  lemma {:induction false} TimeoutSendsAgain(s: Sender, prio: Priorities, now: time, timeout: nat, s': Sender,
                                             record: seq<Sent>)
    returns (n: nat)
    requires s.clock.timer.Some?
    requires FlushEnded(FlushStart(Retried(s, now, timeout), prio, None, now), s', record)
    ensures var rel := s.queues.rel;
      && n <= |rel.queue| && S.Of(DatagramsOf(record), false) == S.RelDatagrams(rel.queue[..n], rel.base)
      && s'.queues.rel.next == rel.base + n && s'.queues.rel.queue == rel.queue
      && (n < |rel.queue| && n < s'.queues.rel.window ==> WindowFull(s'))
    ensures C.Run(s.cc, [C.Timeout]) == Some(s'.cc)
  {
    hide LogCounts, SentAll, QueuesAfter, FilledInTurn, Kept, T.Sum, TimedOutWindow;
    n := s'.queues.rel.next - s.queues.rel.base;
    assert s.queues.rel.queue[0..] == s.queues.rel.queue;
    TimeoutIsRun(s.cc);
  }

  lemma {:induction false} TimeoutIsRun(cc: Congestion)
    ensures C.Run(cc, [C.Timeout]) == Some(TimedOutWindow(cc))
  {
    C.RunNext(cc, [], C.Timeout);
    assert [] + [C.Timeout] == [C.Timeout];
  }

  // ---- what is answered ----

  lemma {:induction false} AnyReliableIsOne(ds: seq<Datagram>)
    ensures AnyReliable(ds) <==> exists d :: d in ds && !d.unrel
    decreases |ds|
  {
    if ds != [] {
      AnyReliableIsOne(ds[..|ds| - 1]);
      assert ds == ds[..|ds| - 1] + [ds[|ds| - 1]];
    }
  }

  /** Every datagram is answered; the answer names the segment expected next, and the reliable fragment expected
      next if there was a reliable datagram. */
  lemma {:induction false} AnswerNames(t: Intake)
    ensures ReplyTo(t).Some? <==> exists d :: d in t.taken
    ensures ReplyTo(t).Some? ==>
      && ReplyTo(t).value.segmentId == Wire(|t.rx.log|)
      && (ReplyTo(t).value.relFragmentId.Some? <==> exists d :: d in t.taken && !d.unrel)
      && (ReplyTo(t).value.relFragmentId.Some? ==> ReplyTo(t).value.relFragmentId.value == Wire(t.mail.rel.next))
  {
    AnyReliableIsOne(t.taken);
    if t.taken != [] {
      assert t.taken[0] in t.taken;
    }
  }

  // ---- how long a packet waits ----

  /** A packet enqueued with a timeout can be sent until the timeout has passed, to the millisecond, and not after. */
  lemma {:induction false} SendableUntilTimeout(q: FragmentTx, packet: Packet, timeout: nat, now: time, later: time)
    requires q.unrel.queue == [] && !q.rel.CanSend() && timeout <= 0xffff
    ensures q.Enqueue(packet, S.Unreliable(timeout), now).DataReady(later) <==> later <= now + timeout
  {
    var fs := Fragmentize(packet, S.FRAGMENT_SIZE);
    var es := Unreliable.Timed(fs, now + timeout + 1);
    assert [] + es == es;
    AllExpire(es, now + timeout + 1, later);
  }

  lemma {:induction false} AllExpire(es: seq<Unreliable.Entry>, expireTime: u64, later: u64)
    requires forall i :: 0 <= i < |es| ==> es[i].expireTime == expireTime
    ensures Unreliable.Unexpired(es, later) == if expireTime <= later then [] else es
    decreases |es|
  {
    if es != [] && expireTime <= later {
      AllExpire(es[1..], expireTime, later);
    }
  }

  lemma {:induction false} NothingReady(q: FragmentTx, prio: Priorities, now: time, space: int)
    requires !q.DataReady(now)
    ensures S.Filled(q, prio, now, space).1 == []
  {
    S.ExpireKeepsValid(q, now);
    S.FilledStep(q, prio, now, space);
  }

  /** Data is ready exactly if a frame with room for a datagram would hold one. */
  lemma {:induction false} ReadyExactly(q: FragmentTx, prio: Priorities, now: time, space: nat)
    requires space >= DATAGRAM_HEADER_SIZE + S.FRAGMENT_SIZE
    ensures q.DataReady(now) <==> S.Filled(q, prio, now, space).1 != []
  {
    hide S.Filled;
    if q.DataReady(now) {
      S.FilledNotEmpty(q, prio, now, space);
    } else {
      NothingReady(q, prio, now, space);
    }
  }

  // ---- the round trip ----

  /** The first segment sent is timed: the acknowledgement of it gives the first estimate, the time it took, and
      three times that for a timeout within its bounds. */
  lemma {:induction false} FirstRoundTrip(from: FlushStart, s: Sender, record: seq<Sent>, ack: StreamAck, later: time)
    requires Flushed(from, s, record) && SegmentCount(record) > 0 && from.s.clock.rtt.None?
    requires from.s.clock.estimate.None? && from.now <= later && ack.segmentId == Wire(from.s.tx.next + 1)
    ensures var rtt, t := later - from.now, AckedSender(s, ack, later).clock;
      && t.rtt.None? && t.estimate.Some? && t.estimate.value.srtt == rtt as real
      && (RoundTrip.RTO_MIN_MS <= 3 * rtt <= RoundTrip.RTO_MAX_MS ==> t.rto == 3 * rtt)
  {
    hide LogCounts, S.Records, SentAll, QueuesAfter, FilledInTurn, T.Sum, AckedTx, AckedWindow, AckedQueues, ShowsDrop;
    WireNext(from.s.tx.next);
    var rtt := later - from.now;
    if RoundTrip.RTO_MIN_MS <= 3 * rtt <= RoundTrip.RTO_MAX_MS {
      RoundTrip.FirstTimeout(rtt);
      RoundTrip.EstimateNext([], rtt);
      assert [] + [rtt] == [rtt];
    }
  }

  /** Any other acknowledgement leaves the estimate and the timeout as they were. */
  lemma {:induction false} OthersDoNotMeasure(s: Sender, ack: StreamAck, now: time)
    requires s.clock.NotBefore(now) && !Measures(s.clock.rtt, ack.segmentId)
    ensures var t := AckedSender(s, ack, now).clock; t.estimate == s.clock.estimate && t.rto == s.clock.rto
  {
  }

  /** The segment stays timed until a timeout has passed, whatever else is acknowledged; then the next
      acknowledgement gives up timing it. */
  lemma {:induction false} TimedUntilDue(from: FlushStart, s: Sender, record: seq<Sent>, ack: StreamAck, later: time)
    requires Flushed(from, s, record) && SegmentCount(record) > 0 && from.s.clock.rtt.None?
    requires from.now <= later && ack.segmentId != Wire(from.s.tx.next + 1)
    ensures var t := AckedSender(s, ack, later).clock;
      if later < from.now + from.s.clock.rto then t.rtt == s.clock.rtt else t.rtt.None?
  {
    hide LogCounts, S.Records, SentAll, QueuesAfter, FilledInTurn, T.Sum, AckedTx, AckedWindow, AckedQueues, ShowsDrop;
    WireNext(from.s.tx.next);
  }

  // ---- a sync ----

  /** After a sync no packet is in progress on the unreliable channel, so none can be joined with what comes under
      identifiers made ambiguous. */
  lemma {:induction false} SyncStartsOver(e: State, f: FrameIn, prio: Priorities, record: seq<Sent>, e': State)
    requires SyncFrameHandled(e, f, prio, record, e') && DecodeSync(f.payload).Some?
    ensures e'.mail.unrel.build.None? && record != []
    ensures record[0].Stream? && record[0].content.ack.Some? &&
      record[0].content.ack.value.relFragmentId == Some(Wire(e'.mail.rel.next))
  {
    hide Flushed;
    var s := DecodeSync(f.payload).value.0;
    FirstFrame(FlushStart(e.s, prio, SyncReply(e'.rx, e'.mail), f.now), e'.s, record);
  }

  lemma {:induction false} FirstFrame(from: FlushStart, s: Sender, record: seq<Sent>)
    requires FlushEnded(from, s, record) && record != []
    ensures record[0].Stream? && record[0].content.ack == from.ack
  {
    assert FrameInTurn(record, 0, from.s.tx.next, from.ack);
  }
}
