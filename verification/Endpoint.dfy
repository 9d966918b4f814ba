/** One end of a connection: what it sends, when it sets the host's timer, and when it gives up. Its
    parts are held as the values their own classes are proved to compute. */
module Endpoint {
  import opened Words
  import opened Bits
  import opened Fragments
  import opened Codec
  import opened RoundTrip
  import opened Timer
  import opened Mailbox
  import Crc
  import F = Frame
  import S = Sending
  import T = SegmentTx
  import R = SegmentRx
  import C = AimdReno
  import P = Prio
  import Reliable
  import Unreliable
  import Channel = SegmentChannel

  const SEGMENT_WINDOW_SIZE: u32 := 4096
  const FRAGMENT_WINDOW_SIZE: u32 := 4096
  const FRESH_QUEUES: S.Queues :=
    S.Queues(Unreliable.Tx([], 0), Reliable.Tx(0, 0, 0, [], FRAGMENT_WINDOW_SIZE, 0), [0, 0, 0, 0])

  // The parts of an endpoint, in the states they can be in.
  type SegmentTx = t: T.Tx | t.Valid() && t.size == SEGMENT_WINDOW_SIZE witness T.InitTx(0, SEGMENT_WINDOW_SIZE)
  type FragmentTx = q: S.Queues | q.Valid()
    witness FRESH_QUEUES
  type Congestion = c: C.State | c.Safe() && c.mss == S.FRAGMENT_SIZE * 0x1_0000 witness C.Init(S.FRAGMENT_SIZE)
  type SegmentRx = r: R.Rx | r.Valid() witness R.Rx([], [], SEGMENT_WINDOW_SIZE)
  type Priorities = p: P.Config | p.Valid() witness P.Config([1, 1, 1, 1], 1)

  const FRESH_TX: SegmentTx := T.InitTx(0, SEGMENT_WINDOW_SIZE)
  const FRESH_FRAGMENTS: FragmentTx := FRESH_QUEUES
  const FRESH_CONGESTION: Congestion := C.Init(S.FRAGMENT_SIZE)
  const FRESH_RX: SegmentRx := R.Rx([], [], SEGMENT_WINDOW_SIZE)

  /** The congestion window in whole bytes. */
  function WindowBytes(cc: Congestion): nat {
    cc.cwnd / 0x1_0000
  }

  // ---- acknowledgements, as they travel ----

  /** The last five segments, the latest in the lowest bit. */
  function HistoryByte(log: seq<Option<R.Segment>>): byte {
    Flag(R.Reported(log, 0), 0x01) | Flag(R.Reported(log, 1), 0x02) | Flag(R.Reported(log, 2), 0x04)
    | Flag(R.Reported(log, 3), 0x08) | Flag(R.Reported(log, 4), 0x10)
  }

  function AckOf(rx: R.Rx, rel: Option<u32>): StreamAck {
    StreamAck(Wire(|rx.log|), HistoryByte(rx.log), R.LogParity(rx.log, R.ACK_BITS), rel)
  }

  /** The history as the sender widens it. */
  function Widened(history: byte): (r: Word)
    ensures |r| == 32
  {
    [history & 0x01 != 0, history & 0x02 != 0, history & 0x04 != 0, history & 0x08 != 0,
     history & 0x10 != 0, history & 0x20 != 0, history & 0x40 != 0, history & 0x80 != 0] + Zero(24)
  }

  /** Through five bits of a frame the sender learns exactly which of the last five were taken in. */
  lemma {:induction false} HistoryArrives(rx: R.Rx, rel: Option<u32>)
    ensures var heard := Widened(AsSent(AckOf(rx, rel)).history);
      forall i :: 0 <= i < 32 ==> heard[i] == (i < R.ACK_BITS && R.Reported(rx.log, i))
  {
    var log := rx.log;
    var history := AsSent(AckOf(rx, rel)).history;
    FlagsArrive(R.Reported(log, 0), R.Reported(log, 1), R.Reported(log, 2), R.Reported(log, 3), R.Reported(log, 4));
    var heard := Widened(history);
    assert heard[0] == R.Reported(log, 0) && heard[1] == R.Reported(log, 1) && heard[2] == R.Reported(log, 2)
        && heard[3] == R.Reported(log, 3) && heard[4] == R.Reported(log, 4) && !heard[5] && !heard[6] && !heard[7];
    forall i | 8 <= i < 32
      ensures !heard[i]
    {
    }
  }

  /** So what arrives is exactly what the segment layer's two sides are proved to agree on. */
  lemma {:induction false} AckIsReport(rx: R.Rx, rel: Option<u32>)
    ensures var ack := AsSent(AckOf(rx, rel));
      && ack.segmentId == Wire(|rx.log|) && ack.relFragmentId == rel
      && Channel.Reports(rx.log, Channel.Ack(|rx.log|, Widened(ack.history), ack.checksum))
  {
    HistoryArrives(rx, rel);
  }

  function ByteOf(w: Word): byte
    requires |w| == 8
  {
    Flag(w[0], 0x01) | Flag(w[1], 0x02) | Flag(w[2], 0x04) | Flag(w[3], 0x08)
    | Flag(w[4], 0x10) | Flag(w[5], 0x20) | Flag(w[6], 0x40) | Flag(w[7], 0x80)
  }

  /** It is what the segment layer's receiver says. */
  lemma {:induction false} AckOfIsNextAckInfo(rx: R.Rx, rel: Option<u32>, history: Word, checksum: bool)
    requires R.AckInfo(rx.log, history, checksum)
    ensures AckOf(rx, rel) == StreamAck(Wire(|rx.log|), ByteOf(history), checksum, rel)
  {
    var log := rx.log;
    assert history[5] == history[6] == history[7] == false;
    assert history[0] == R.Reported(log, 0) && history[1] == R.Reported(log, 1) && history[2] == R.Reported(log, 2)
        && history[3] == R.Reported(log, 3) && history[4] == R.Reported(log, 4);
    NoFlags(HistoryByte(log));
  }

  lemma {:induction false} NoFlags(b: byte)
    ensures b | Flag(false, 0x20) | Flag(false, 0x40) | Flag(false, 0x80) == b
  {
  }

  lemma {:induction false} FlagsArrive(b0: bool, b1: bool, b2: bool, b3: bool, b4: bool)
    ensures var history := (Flag(b0, 0x01) | Flag(b1, 0x02) | Flag(b2, 0x04) | Flag(b3, 0x08) | Flag(b4, 0x10)) & 0x1F;
      && (history & 0x01 != 0) == b0 && (history & 0x02 != 0) == b1 && (history & 0x04 != 0) == b2
      && (history & 0x08 != 0) == b3 && (history & 0x10 != 0) == b4
      && history & 0x20 == 0 && history & 0x40 == 0 && history & 0x80 == 0
  {
  }

  // ---- the sending side as a value ----

  datatype Sender = Sender(tx: SegmentTx, queues: FragmentTx, cc: Congestion, clock: Timing)

  /** The host's timer is set exactly when the endpoint knows of one, and in the active state that is
      exactly when segments are unacknowledged. */
  ghost predicate TimerAgrees(s: Sender) {
    && (s.clock.due.Some? <==> s.clock.timer.Some?)
    && (s.clock.timer.Some? <==> s.tx.base != s.tx.next)
  }

  // ---- what leaves in one flush ----

  /** A frame handed to the host. The close frames carry a nonce which is not part of this model. */
  datatype Sent = Stream(content: F.Content) | Sync(next: StreamSync) | CloseRequest | CloseReply

  predicate HasSegment(s: Sent) {
    s.Stream? && s.content.segment.Some?
  }

  function SegmentOf(s: Sent): seq<Datagram> {
    if HasSegment(s) then s.content.segment.value.1 else []
  }

  function DatagramsOf(record: seq<Sent>): seq<Datagram>
    decreases |record|
  {
    if record == [] then [] else DatagramsOf(record[..|record| - 1]) + SegmentOf(record[|record| - 1])
  }

  function SegmentCount(record: seq<Sent>): nat
    decreases |record|
  {
    if record == [] then 0
    else SegmentCount(record[..|record| - 1]) + if HasSegment(record[|record| - 1]) then 1 else 0
  }

  predicate Carries(c: F.Content) {
    c.ack.Some? || c.segment.Some?
  }

  function FrameLength(c: F.Content): nat {
    F.FRAME_OVERHEAD_SIZE + (if c.ack.Some? then STREAM_ACK_SIZE else 0)
    + if c.segment.Some? then SEGMENT_HEADER_SIZE + |EncodeAll(c.segment.value.1)| else 0
  }

  lemma {:induction false} FrameSize(c: F.Content)
    requires Carries(c)
    ensures |F.FrameOf(c)| == FrameLength(c)
  {
  }

  /** A frame fits and says something; a data frame carries the next segment and at least one datagram. */
  ghost predicate FrameFits(c: F.Content, next: nat) {
    && Carries(c) && FrameLength(c) <= F.FRAME_SIZE_MAX
    && (c.segment.Some? ==>
        && c.segment.value.0.id == Wire(next) && c.segment.value.1 != []
        && forall d :: d in c.segment.value.1 ==> Sendable(d))
  }

  /** At most one acknowledgement, in the first frame; segments numbered on from `next`. */
  ghost predicate LogHolds(record: seq<Sent>, next: nat, ack: Option<StreamAck>) {
    forall i :: 0 <= i < |record| ==> FrameInTurn(record, i, next, ack)
  }

  ghost predicate FrameInTurn(record: seq<Sent>, i: nat, next: nat, ack: Option<StreamAck>)
    requires i < |record|
  {
    && record[i].Stream?
    && record[i].content.ack == (if i == 0 then ack else None)
    && FrameFits(record[i].content, next + SegmentCount(record[..i]))
  }

  /** There is a segment in every frame but possibly the one with the acknowledgement. */
  ghost predicate LogCounts(record: seq<Sent>, next: nat, ack: Option<StreamAck>) {
    LogHolds(record, next, ack) && |record| <= SegmentCount(record) + if ack.Some? then 1 else 0
  }

  lemma {:induction false} RecordNext(record: seq<Sent>, c: F.Content, next: nat, ack: Option<StreamAck>)
    requires LogCounts(record, next, ack) && c.ack == (if record == [] then ack else None)
    requires FrameFits(c, next + SegmentCount(record))
    ensures LogCounts(record + [Stream(c)], next, ack)
    ensures SegmentCount(record + [Stream(c)]) == SegmentCount(record) + if c.segment.Some? then 1 else 0
  {
    var more := record + [Stream(c)];
    assert more[..|record|] == record;
    forall i | 0 <= i < |more|
      ensures FrameInTurn(more, i, next, ack)
    {
      if i < |record| {
        assert more[..i] == record[..i] && FrameInTurn(record, i, next, ack);
      }
    }
  }

  /** The segment sender once all the segments of the frames are sent. */
  function SentAll(tx: T.Tx, record: seq<Sent>): T.Tx
    decreases |record|
  {
    if record == [] then tx
    else
      var before, last := SentAll(tx, record[..|record| - 1]), record[|record| - 1];
      if HasSegment(last) then before.Send(S.DataSize(SegmentOf(last)), last.content.segment.value.0.nonce) else before
  }

  lemma {:induction false} SentAllNext(tx: T.Tx, record: seq<Sent>, s: Sent)
    ensures SentAll(tx, record + [s]) ==
      if HasSegment(s) then SentAll(tx, record).Send(S.DataSize(SegmentOf(s)), s.content.segment.value.0.nonce)
      else SentAll(tx, record)
  {
    assert (record + [s])[..|record|] == record;
  }

  /** The queues once the segments of the frames are filled one after another. */
  function QueuesAfter(q: FragmentTx, prio: Priorities, now: time, record: seq<Sent>): FragmentTx
    decreases |record|
  {
    if record == [] then
      S.ExpireKeepsValid(q, now);
      q.Expire(now)
    else
      var before, last := QueuesAfter(q, prio, now, record[..|record| - 1]), record[|record| - 1];
      if HasSegment(last) then S.Filled(before, prio, now, S.RoomFor(last.content.ack)).0 else before
  }

  /** Every segment holds what the queues fill it with when its turn comes. */
  ghost predicate FilledInTurn(q: FragmentTx, prio: Priorities, now: time, record: seq<Sent>) {
    forall i :: 0 <= i < |record| && HasSegment(record[i]) ==> FilledAt(q, prio, now, record, i)
  }

  ghost predicate FilledAt(q: FragmentTx, prio: Priorities, now: time, record: seq<Sent>, i: nat)
    requires i < |record| && HasSegment(record[i])
  {
    SegmentOf(record[i]) ==
    S.Filled(QueuesAfter(q, prio, now, record[..i]), prio, now, S.RoomFor(record[i].content.ack)).1
  }

  lemma {:induction false} FilledNext(q: FragmentTx, prio: Priorities, now: time, record: seq<Sent>, s: Sent)
    requires FilledInTurn(q, prio, now, record)
    requires HasSegment(s) ==>
      SegmentOf(s) == S.Filled(QueuesAfter(q, prio, now, record), prio, now, S.RoomFor(s.content.ack)).1
    ensures FilledInTurn(q, prio, now, record + [s])
    ensures QueuesAfter(q, prio, now, record + [s]) ==
      if HasSegment(s) then S.Filled(QueuesAfter(q, prio, now, record), prio, now, S.RoomFor(s.content.ack)).0
      else QueuesAfter(q, prio, now, record)
  {
    var more := record + [s];
    assert more[..|record|] == record;
    forall i | 0 <= i < |more| && HasSegment(more[i])
      ensures FilledAt(q, prio, now, more, i)
    {
      if i < |record| {
        assert more[..i] == record[..i] && FilledAt(q, prio, now, record, i);
      }
    }
  }

  /** Where a flush began. */
  datatype FlushStart = FlushStart(s: Sender, prio: Priorities, ack: Option<StreamAck>, now: time)

  /** What has been flushed so far: the frames, the segments and the datagrams in them, and no more bytes
      in transit than the window and one frame. A timer that ran is left alone. */
  ghost predicate Flushed(from: FlushStart, s: Sender, record: seq<Sent>) {
    && LogCounts(record, from.s.tx.next, from.ack)
    && s.tx == SentAll(from.s.tx, record)
    && s.tx.base == from.s.tx.base && s.tx.next == from.s.tx.next + SegmentCount(record)
    && S.Records(from.s.queues, from.now, s.queues, DatagramsOf(record))
    && s.queues.Expire(from.now) == QueuesAfter(from.s.queues, from.prio, from.now, record)
    && FilledInTurn(from.s.queues, from.prio, from.now, record)
    && s.cc == from.s.cc && T.Sum(from.s.tx.sizes) <= T.Sum(s.tx.sizes)
    && (SegmentCount(record) > 0 ==>
        && T.Sum(from.s.tx.sizes) < WindowBytes(s.cc) && T.Sum(s.tx.sizes) < WindowBytes(s.cc) + F.FRAME_SIZE_MAX
        && s.clock.rtt.Some?)
    && Kept(from.s.clock, s.clock, from.s.tx.next, from.now)
    && TimerAgrees(s)
  }

  /** A window is full, in segments or in bytes. */
  predicate WindowFull(s: Sender) {
    s.tx.next - s.tx.base >= SEGMENT_WINDOW_SIZE || T.Sum(s.tx.sizes) >= WindowBytes(s.cc)
  }

  /** A flush has come to its end: what has expired is gone, the acknowledgement has left, and so has what was
      ready, up to where a window is full; then the timer runs. */
  ghost predicate FlushEnded(from: FlushStart, s: Sender, record: seq<Sent>) {
    && Flushed(from, s, record) && s.queues.Expire(from.now) == s.queues
    && (from.ack.Some? ==> record != [])
    && (s.queues.DataReady(from.now) ==> WindowFull(s) && s.clock.due.Some?)
  }

  lemma {:induction false} FlushedNothing(from: FlushStart)
    requires TimerAgrees(from.s)
    ensures Flushed(from, from.s, [])
  {
    S.RecordsSame(from.s.queues, from.now);
  }

  lemma {:induction false} FlushedExpire(from: FlushStart, s: Sender, record: seq<Sent>)
    requires Flushed(from, s, record)
    ensures s.queues.Expire(from.now).Valid() && Flushed(from, s.(queues := s.queues.Expire(from.now)), record)
  {
    S.ExpireKeepsValid(s.queues, from.now);
    S.RecordsNothing(s.queues, from.now);
    S.RecordsAppend(from.s.queues, from.now, s.queues, DatagramsOf(record), s.queues.Expire(from.now), []);
    S.ExpireTwice(s.queues, from.now);
    assert DatagramsOf(record) + [] == DatagramsOf(record);
  }

  /** What one frame does to the sending side. */
  ghost predicate FrameSent(s: Sender, prio: Priorities, c: F.Content, now: time, s': Sender) {
    && FrameFits(c, s.tx.next)
    && s'.tx == (if c.segment.Some? then s.tx.Send(S.DataSize(c.segment.value.1), c.segment.value.0.nonce) else s.tx)
    && (if c.segment.Some? then
          (s'.queues, c.segment.value.1) == S.Filled(s.queues, prio, now, S.RoomFor(c.ack))
        else s'.queues == s.queues)
    && s'.cc == s.cc
    && (c.segment.Some? ==> s'.clock.rtt.Some?)
    && Kept(s.clock, s'.clock, s.tx.next, now)
    && TimerAgrees(s')
  }

  lemma {:induction false} FlushedNext(from: FlushStart, s: Sender, record: seq<Sent>, c: F.Content, s': Sender)
    requires Flushed(from, s, record) && FrameSent(s, from.prio, c, from.now, s')
    requires s.queues.Expire(from.now) == s.queues
    requires c.ack == if record == [] then from.ack else None
    requires c.segment.Some? ==> T.Sum(s.tx.sizes) < WindowBytes(s.cc)
    ensures Flushed(from, s', record + [Stream(c)])
  {
    hide LogCounts, S.Records, SentAll, DatagramsOf, QueuesAfter, FilledInTurn, S.Filled, Kept, T.Sum;
    KeptOn(from, s, c, s', SegmentCount(record));
    RecordNext(record, c, from.s.tx.next, from.ack);
    FrameRecords(s, from.prio, c, from.now, s');
    RecordsNext(from, s.queues, record, s'.queues, Stream(c));
    FilledNext(from.s.queues, from.prio, from.now, record, Stream(c));
    SentAllNext(from.s.tx, record, Stream(c));
    if c.segment.Some? {
      Overshoot(s.tx, c, WindowBytes(s.cc));
      S.FilledIsExpired(s.queues, from.prio, from.now, S.RoomFor(c.ack));
    }
  }

  lemma {:induction false} KeptOn(from: FlushStart, s: Sender, c: F.Content, s': Sender, count: nat)
    requires Kept(from.s.clock, s.clock, from.s.tx.next, from.now) && Kept(s.clock, s'.clock, s.tx.next, from.now)
    requires s.tx.next == from.s.tx.next + count && (count > 0 ==> s.clock.rtt.Some?)
    ensures Kept(from.s.clock, s'.clock, from.s.tx.next, from.now)
    ensures s.clock.rtt.Some? ==> s'.clock.rtt.Some?
  {
  }

  lemma {:induction false} FrameRecords(s: Sender, prio: Priorities, c: F.Content, now: time, s': Sender)
    requires FrameSent(s, prio, c, now, s')
    ensures S.Records(s.queues, now, s'.queues, SegmentOf(Stream(c)))
  {
    if c.segment.Some? {
      S.FilledRecords(s.queues, prio, now, S.RoomFor(c.ack));
    } else {
      S.RecordsSame(s.queues, now);
    }
  }

  lemma {:induction false} RecordsNext(from: FlushStart, q: FragmentTx, record: seq<Sent>, q': FragmentTx, s: Sent)
    requires S.Records(from.s.queues, from.now, q, DatagramsOf(record)) && S.Records(q, from.now, q', SegmentOf(s))
    ensures S.Records(from.s.queues, from.now, q', DatagramsOf(record + [s]))
  {
    DatagramsNext(record, s);
    S.RecordsAppend(from.s.queues, from.now, q, DatagramsOf(record), q', SegmentOf(s));
  }

  lemma {:induction false} DatagramsNext(record: seq<Sent>, s: Sent)
    ensures DatagramsOf(record + [s]) == DatagramsOf(record) + SegmentOf(s)
  {
    assert (record + [s])[..|record|] == record;
  }

  lemma {:induction false} Regroup(before: seq<Sent>, record: seq<Sent>, s: Sent)
    ensures before + record + [s] == before + (record + [s])
  {
  }

  /** A frame adds less than its own size to the bytes in transit. */
  lemma {:induction false} Overshoot(tx: T.Tx, c: F.Content, limit: nat)
    requires c.segment.Some? && FrameLength(c) <= F.FRAME_SIZE_MAX && T.Sum(tx.sizes) < limit
    ensures T.Sum(tx.sizes) <= T.Sum(tx.Send(S.DataSize(c.segment.value.1), c.segment.value.0.nonce).sizes)
    ensures T.Sum(tx.Send(S.DataSize(c.segment.value.1), c.segment.value.0.nonce).sizes) < limit + F.FRAME_SIZE_MAX
  {
    T.SumNext(tx.sizes, S.DataSize(c.segment.value.1));
    S.DataSizeFits(c.segment.value.1);
  }

  /** A flush comes to an end within a frame for every free place in the window, and one. */
  lemma {:induction false} FlushBound(from: FlushStart, s: Sender, record: seq<Sent>)
    requires Flushed(from, s, record)
    ensures |record| <= SEGMENT_WINDOW_SIZE - (from.s.tx.next - from.s.tx.base) + 1
  {
  }

  /** Whatever a flush sends fits in a packet of the network and reads back as it was sent. */
  lemma {:induction false} SentFrameReadsBack(c: F.Content, next: nat)
    requires FrameFits(c, next)
    ensures var frame := F.FrameOf(c);
      && F.FRAME_OVERHEAD_SIZE <= |frame| <= F.FRAME_SIZE_MAX && Crc.Verifies(frame)
      && F.ReadType(frame) == Some(F.KindOf(c)) && F.Parse(F.KindOf(c), F.Payload(frame)) == Some(F.Arriving(c))
  {
    FrameSize(c);
    F.FrameRoundTrip(c);
  }

  // ---- the endpoint ----

  const FRESH_CLOCK: Timing := Timing(PreInit, None, None, RTO_INITIAL_MS, None, None, [])
  const FRESH_SENDER: Sender := Sender(FRESH_TX, FRESH_FRAGMENTS, FRESH_CONGESTION, FRESH_CLOCK)

  /** What an endpoint keeps. The host hears of the connection once, and once of its end. */
  ghost predicate Sound(s: Sender, timeout: nat) {
    && (s.clock.timer.Some? && s.clock.state != Zombie ==>
        && s.clock.timer.value.rto == s.clock.rto
        && (s.clock.timer.value.sum > 0 ==> s.clock.timer.value.sum < timeout))
    && match s.clock.state
       case PreInit => s.clock.due.None? && s.clock.timer.None? && s.tx.base == s.tx.next && s.clock.notices == []
       case Active => TimerAgrees(s) && s.clock.notices == [OnConnect]
       case Closing => s.clock.due.Some? && s.clock.timer.Some? && s.clock.notices == [OnConnect]
       case Closed => s.clock.due.Some? && s.clock.timer.None? && s.clock.notices == [OnConnect, OnDisconnect]
       case Zombie => s.clock.notices in {[OnConnect, OnDisconnect], [OnConnect, OnTimeout]}
  }

  lemma {:induction false} FlushedIsSound(from: FlushStart, s: Sender, record: seq<Sent>, timeout: nat)
    requires Sound(from.s, timeout) && from.s.clock.state == Active && Flushed(from, s, record)
    ensures Sound(s, timeout)
  {
  }

  lemma {:induction false} ExpiredIsSound(s: Sender, now: time, timeout: nat)
    requires Sound(s, timeout) && s.clock.state in {Active, Closing} && s.clock.timer.Some?
    ensures Sound(s.(clock := Expired(s.clock, now, timeout)), timeout)
  {
    assert [OnConnect] + [OnTimeout] == [OnConnect, OnTimeout];
  }

  lemma {:induction false} FreshIsSound(timeout: nat)
    ensures Sound(FRESH_SENDER, timeout)
  {
    hide T.Tx.Valid, S.Queues.Valid, C.State.Safe;
  }

  class Endpoint {
    const timeoutTime: nat
    const prio: Priorities

    var stateId: StateId

    // Sender state
    var segmentTx: SegmentTx
    var fragmentTx: FragmentTx
    var cc: Congestion
    var rto: Rto
    var rtoTimer: Option<RtoTimer>
    var rttTimer: Option<RttTimer>
    var rttState: Option<Estimate>

    // Receiver state
    var segmentRx: SegmentRx
    var unreliableRx: Unreliable.Rx
    var reliableRx: Reliable.Rx

    // The host: when its timer is due, the frames it was given to send, the packets it received, and
    // the notices it was given.
    var due: Option<nat>
    var frames: seq<Sent>
    var received: seq<Packet>
    var notices: seq<Notice>

    ghost function Clock(): Timing
      reads this
    {
      Timing(stateId, due, rtoTimer, rto, rttTimer, rttState, notices)
    }

    ghost function Sending(): Sender
      reads this
    {
      Sender(segmentTx, fragmentTx, cc, Clock())
    }

    ghost predicate Valid()
      reads this
    {
      Sound(Sending(), timeoutTime)
    }

    constructor (timeoutTime: nat, prio: Priorities)
      ensures Valid() && this.timeoutTime == timeoutTime && this.prio == prio
      ensures Sending() == FRESH_SENDER && frames == []
      ensures segmentRx == FRESH_RX && Inbox() == Mail(Unreliable.Rx(0, None), Reliable.Rx(0, None), [])
    {
      hide T.Tx.Valid, S.Queues.Valid, C.State.Safe, R.Rx.Valid, P.Config.Valid, Sound;
      this.timeoutTime := timeoutTime;
      this.prio := prio;
      stateId := PreInit;
      segmentTx, fragmentTx, cc := FRESH_TX, FRESH_FRAGMENTS, FRESH_CONGESTION;
      rto := RTO_INITIAL_MS;
      rtoTimer, rttTimer, rttState := None, None, None;
      segmentRx := FRESH_RX;
      unreliableRx := Unreliable.Rx(0, None);
      reliableRx := Reliable.Rx(0, None);
      due, frames, received, notices := None, [], [], [];
      new;
      FreshIsSound(timeoutTime);
    }

    method Init()
      requires Valid() && stateId == PreInit
      modifies `stateId, `notices
      ensures Valid() && Clock() == old(Clock()).(state := Active, notices := [OnConnect])
    {
      stateId := Active;
      notices := notices + [OnConnect];
    }

    /** Sets the host's timer anew. */
    method StartTimer(now: time)
      modifies `due, `rtoTimer
      ensures Clock() == old(Clock()).Started(now)
    {
      due := Some(now + rto);
      rtoTimer := Some(RtoTimer(rto, 0));
    }

    /** Whether a data frame may be sent now; what has expired is dropped in passing. */
    method MaySend(now: time) returns (sendData: bool)
      modifies `fragmentTx
      ensures fragmentTx == old(fragmentTx).Expire(now)
      ensures sendData == (segmentTx.CanSend() && T.Sum(segmentTx.sizes) < WindowBytes(cc) && fragmentTx.DataReady(now))
      ensures !sendData && fragmentTx.DataReady(now) ==> segmentTx.base != segmentTx.next
    {
      S.ExpireTwice(fragmentTx, now);
      var cwnd := WindowBytes(cc);
      var frameWindowLimited := !segmentTx.CanSend();
      var congestionWindowLimited := T.Sum(segmentTx.sizes) >= cwnd;
      var dataReady := fragmentTx.DataReady(now);
      S.ExpireKeepsValid(fragmentTx, now);
      fragmentTx := fragmentTx.Expire(now);
      sendData := !frameWindowLimited && !congestionWindowLimited && dataReady;
    }

    /** Fills a frame's segment from the queues. */
    method FillSegment(space: nat, now: time) returns (ds: seq<Datagram>)
      requires fragmentTx.DataReady(now) && space >= DATAGRAM_HEADER_SIZE + S.FRAGMENT_SIZE
      modifies `fragmentTx
      ensures (fragmentTx, ds) == S.Filled(old(fragmentTx), prio, now, space)
      ensures ds != [] && |EncodeAll(ds)| <= space && forall d :: d in ds ==> Sendable(d)
    {
      S.FilledNotEmpty(fragmentTx, prio, now, space);
      S.FilledToTheBrim(fragmentTx, prio, now, space);
      var filled := S.Filled(fragmentTx, prio, now, space);
      ds := filled.1;
      fragmentTx := filled.0;
    }

    /** Sends a segment, and sees to it that the timer runs. */
    method SendData(space: nat, now: time) returns (header: SegmentHeader, ds: seq<Datagram>)
      requires TimerAgrees(Sending())
      requires segmentTx.CanSend() && fragmentTx.DataReady(now) && space >= DATAGRAM_HEADER_SIZE + S.FRAGMENT_SIZE
      modifies `segmentTx, `fragmentTx, `due, `rtoTimer, `rttTimer
      ensures TimerAgrees(Sending())
      ensures header.id == Wire(old(segmentTx).next) && segmentTx == old(segmentTx).Send(S.DataSize(ds), header.nonce)
      ensures ds != [] && |EncodeAll(ds)| <= space && forall d :: d in ds ==> Sendable(d)
      ensures (fragmentTx, ds) == S.Filled(old(fragmentTx), prio, now, space)
      ensures Kept(old(Clock()), Clock(), old(segmentTx).next, now) && rttTimer.Some?
    {
      hide S.Filled;
      var segmentId := Wire(segmentTx.next);
      var nonce: bool := *;
      header := SegmentHeader(segmentId, nonce);
      ds := FillSegment(space, now);
      segmentTx := segmentTx.Send(S.DataSize(ds), nonce);

      // Acknowledgements are expected; set the timer if it is not set already.
      if rtoTimer.None? {
        StartTimer(now);
      }
      if rttTimer.None? {
        rttTimer := Some(RttTimer(segmentId, now, now + rto));
      }
    }

    /** Sends one frame. */
    method SendFrame(ack: Option<StreamAck>, sendData: bool, now: time) returns (c: F.Content)
      requires TimerAgrees(Sending()) && (ack.Some? || sendData)
      requires sendData ==> segmentTx.CanSend() && fragmentTx.DataReady(now)
      modifies `segmentTx, `fragmentTx, `due, `rtoTimer, `rttTimer, `frames
      ensures c.ack == ack && (c.segment.Some? <==> sendData)
      ensures FrameSent(old(Sending()), prio, c, now, Sending()) && frames == old(frames) + [Stream(c)]
    {
      hide S.Filled;
      c := F.Content(ack, None);
      if sendData {
        var header, ds := SendData(S.RoomFor(ack), now);
        c := F.Content(ack, Some((header, ds)));
      }
      frames := frames + [Stream(c)];
    }

    /** `MaySend`, in the course of a flush. */
    method MaySendMore(now: time, ghost from: FlushStart, ghost record: seq<Sent>) returns (sendData: bool)
      requires now == from.now && Flushed(from, Sending(), record)
      modifies `fragmentTx
      ensures Flushed(from, Sending(), record) && fragmentTx.Expire(now) == fragmentTx
      ensures sendData ==> segmentTx.CanSend() && T.Sum(segmentTx.sizes) < WindowBytes(cc) && fragmentTx.DataReady(now)
      ensures !sendData && fragmentTx.DataReady(now) ==> WindowFull(Sending()) && due.Some?
    {
      FlushedExpire(from, Sending(), record);
      S.ExpireTwice(fragmentTx, now);
      sendData := MaySend(now);
    }

    /** `SendFrame`, in the course of a flush. */
    method SendMore(ack: Option<StreamAck>, sendData: bool, now: time,
                    ghost from: FlushStart, ghost record: seq<Sent>, ghost before: seq<Sent>)
      returns (ghost more: seq<Sent>)
      requires now == from.now && prio == from.prio && Flushed(from, Sending(), record)
      requires fragmentTx.Expire(now) == fragmentTx
      requires ack == (if record == [] then from.ack else None) && frames == before + record
      requires ack.Some? || sendData
      requires sendData ==> segmentTx.CanSend() && T.Sum(segmentTx.sizes) < WindowBytes(cc) && fragmentTx.DataReady(now)
      modifies `segmentTx, `fragmentTx, `due, `rtoTimer, `rttTimer, `frames
      ensures Flushed(from, Sending(), more) && frames == before + more && more != []
      ensures segmentTx.next == old(segmentTx).next + if sendData then 1 else 0
    {
      var c := SendFrame(ack, sendData, now);
      FlushedNext(from, old(Sending()), record, c, Sending());
      more := record + [Stream(c)];
      Regroup(before, record, Stream(c));
    }

    /** The loop of `FlushStream`, begun at `from` with the acknowledgement due. */
    method FlushLoop(due0: Option<StreamAck>, now: time, ghost from: FlushStart) returns (ghost record: seq<Sent>)
      requires TimerAgrees(Sending()) && from == FlushStart(Sending(), prio, due0, now)
      modifies `segmentTx, `fragmentTx, `due, `rtoTimer, `rttTimer, `frames
      ensures frames == old(frames) + record && (due0.Some? ==> record != [])
      ensures FlushEnded(from, Sending(), record)
    {
      hide LogCounts, S.Records, SentAll, DatagramsOf, QueuesAfter, FilledInTurn;
      record := [];
      var ack := due0;
      ghost var before := frames;
      FlushedNothing(from);
      while true
        invariant ack == if record == [] then due0 else None
        invariant Flushed(from, Sending(), record)
        invariant frames == before + record
        decreases from.s.tx.base + SEGMENT_WINDOW_SIZE - segmentTx.next + if ack.Some? then 1 else 0
      {
        var sendData := MaySendMore(now, from, record);
        if ack.None? && !sendData {
          return;
        }
        record := SendMore(ack, sendData, now, from, record, before);
        ack := None;
      }
    }

    /** Sends as many frames as the windows and the queues allow, the acknowledgement asked for in the
        first. On return either nothing is ready to be sent or the timer runs. */
    method FlushStream(sendAck: bool, ackRel: bool, now: time) returns (ghost record: seq<Sent>)
      requires TimerAgrees(Sending())
      modifies `segmentTx, `fragmentTx, `due, `rtoTimer, `rttTimer, `frames
      ensures frames == old(frames) + record && (sendAck ==> record != [])
      ensures FlushEnded(FlushStart(old(Sending()), prio, old(AckDue(sendAck, ackRel)), now), Sending(), record)
    {
      hide Flushed;
      var ack := AckDue(sendAck, ackRel);
      record := FlushLoop(ack, now, FlushStart(Sending(), prio, ack, now));
    }

    /** The acknowledgement a flush begins with, if one is asked for. */
    function AckDue(sendAck: bool, ackRel: bool): Option<StreamAck>
      reads this
    {
      if sendAck then Some(AckOf(segmentRx, if ackRel then Some(Wire(reliableRx.next)) else None)) else None
    }

    // ---- acknowledgements ----

    method UpdateRtt(segmentId: u32, now: time)
      requires Clock().NotBefore(now)
      modifies `rto, `rttTimer, `rttState
      ensures Clock() == Estimated(old(Clock()), segmentId, now)
    {
      if rttTimer.Some? {
        if segmentId == WrapAdd(rttTimer.value.segmentId, 1) {
          // This is the acknowledgement the timer is looking for.
          rttState := Some(Measured(rttState, now - rttTimer.value.sendTime));
          rto := Timeout(rttState.value);
          rttTimer := None;
        } else if rttTimer.value.expireTime <= now {
          rttTimer := None;
        }
      }
    }

    /** Once an acknowledgement is in: the timer stops when everything sent is acknowledged, and starts
        over when more is expected. */
    method UpdateRtoTimer(segmentId: u32, now: time)
      modifies `due, `rtoTimer
      ensures Clock() ==
        if old(rtoTimer).None? then old(Clock())
        else if segmentId == Wire(segmentTx.next) then old(Clock()).(due := None, timer := None)
        else old(Clock()).Started(now)
    {
      if rtoTimer.Some? {
        if segmentId == Wire(segmentTx.next) {
          // All caught up.
          due := None;
          rtoTimer := None;
        } else {
          // More acknowledgements are expected.
          StartTimer(now);
        }
      }
    }

    /** The windows' and the queues' share of an acknowledgement. */
    method TakeAck(ack: StreamAck)
      modifies `segmentTx, `fragmentTx, `cc
      ensures segmentTx == AckedTx(old(segmentTx), ack)
      ensures fragmentTx == AckedQueues(old(fragmentTx), ack.relFragmentId)
      ensures cc == AckedWindow(old(cc), ShowsDrop(old(segmentTx), ack))
    {
      var drop := ShowsDrop(segmentTx, ack);
      segmentTx := AckedTx(segmentTx, ack);
      cc := AckedWindow(cc, drop);
      fragmentTx := AckedQueues(fragmentTx, ack.relFragmentId);
    }

    method HandleAck(ack: StreamAck, now: time)
      requires TimerAgrees(Sending()) && Clock().NotBefore(now)
      modifies `segmentTx, `fragmentTx, `cc, `rto, `rttTimer, `rttState, `due, `rtoTimer
      ensures TimerAgrees(Sending()) && Sending() == AckedSender(old(Sending()), ack, now)
    {
      hide AckedTx, AckedQueues, AckedWindow, ShowsDrop, Estimated;
      AckKeepsTimer(Sending(), ack, now);
      AckCatchesUp(segmentTx, ack);
      TakeAck(ack);
      UpdateRtt(ack.segmentId, now);
      UpdateRtoTimer(ack.segmentId, now);
    }

    // ---- frames arriving ----

    ghost function Inbox(): Mail
      reads this
    {
      Mail(unreliableRx, reliableRx, received)
    }

    method TakeDatagram(d: Datagram)
      modifies `unreliableRx, `reliableRx, `received
      ensures Inbox() == Take(old(Inbox()), d)
    {
      var f := Fragment(d.first, d.last, d.data);
      if d.unrel {
        received := received + unreliableRx.Completed(d.id, f, S.FRAGMENT_SIZE);
        unreliableRx := unreliableRx.Receive(d.id, f, S.FRAGMENT_SIZE);
      } else {
        received := received + reliableRx.Completed(d.id, f, S.FRAGMENT_SIZE);
        reliableRx := reliableRx.Receive(d.id, f, S.FRAGMENT_SIZE);
      }
    }

    /** Hands datagrams to their channels; reports whether there was one at all, and whether there was a
        reliable one. */
    method TakeDatagrams(ds: seq<Datagram>) returns (any: bool, anyReliable: bool)
      modifies `unreliableRx, `reliableRx, `received
      ensures Inbox() == TakeAll(old(Inbox()), ds)
      ensures any == (ds != []) && anyReliable == AnyReliable(ds)
    {
      any, anyReliable := false, false;
      var i := 0;
      while i < |ds|
        invariant i <= |ds| && Inbox() == TakeAll(old(Inbox()), ds[..i])
        invariant any == (i > 0) && anyReliable == AnyReliable(ds[..i])
      {
        assert ds[..i + 1][..i] == ds[..i];
        TakeDatagram(ds[i]);
        any, anyReliable := true, anyReliable || !ds[i].unrel;
        i := i + 1;
      }
      assert ds[..|ds|] == ds;
    }

    method TakeSegment(bytes: seq<byte>) returns (any: bool, anyReliable: bool)
      modifies `unreliableRx, `reliableRx, `received
      ensures Inbox() == TakeAll(old(Inbox()), DecodeAll(bytes))
      ensures any == (DecodeAll(bytes) != []) && anyReliable == AnyReliable(DecodeAll(bytes))
    {
      var reader := new F.PayloadReader(bytes);
      var ds := reader.ReadDatagrams();
      any, anyReliable := TakeDatagrams(ds);
    }

    method TakeSegments(payloads: seq<seq<byte>>) returns (any: bool, anyReliable: bool)
      modifies `unreliableRx, `reliableRx, `received
      ensures Inbox() == TakeAll(old(Inbox()), DecodeEach(payloads))
      ensures any == (DecodeEach(payloads) != []) && anyReliable == AnyReliable(DecodeEach(payloads))
    {
      hide DecodeAll, Take;
      any, anyReliable := false, false;
      var i := 0;
      while i < |payloads|
        invariant i <= |payloads| && Inbox() == TakeAll(old(Inbox()), DecodeEach(payloads[..i]))
        invariant any == (DecodeEach(payloads[..i]) != [])
        invariant anyReliable == AnyReliable(DecodeEach(payloads[..i]))
      {
        DecodeEachNext(payloads, i);
        TakeAllConcat(old(Inbox()), DecodeEach(payloads[..i]), DecodeAll(payloads[i]));
        AnyReliableConcat(DecodeEach(payloads[..i]), DecodeAll(payloads[i]));
        var more, moreReliable := TakeSegment(payloads[i]);
        any, anyReliable := any || more, anyReliable || moreReliable;
        i := i + 1;
      }
      assert payloads[..|payloads|] == payloads;
    }

    /** Takes in a segment; reports whether the segments now handed over held any datagrams, and any
        reliable ones. */
    method HandleSegment(src: seq<byte>) returns (any: bool, anyReliable: bool)
      modifies `segmentRx, `unreliableRx, `reliableRx, `received
      ensures var t := SegmentTaken(old(segmentRx), old(Inbox()), src);
        segmentRx == t.rx && Inbox() == t.mail && any == (t.taken != []) && anyReliable == AnyReliable(t.taken)
    {
      any, anyReliable := false, false;
      match DecodeHeader(src)
      case None =>
      case Some((header, size)) =>
        var log := segmentRx.log;
        segmentRx := ReceivedSegment(segmentRx, header, src[size..]);
        any, anyReliable := TakeSegments(R.Handed(log, segmentRx.log));
    }

    /** Reads the acknowledgement a frame begins with. */
    method ReadAck(payload: seq<byte>, now: time) returns (whole: bool)
      requires TimerAgrees(Sending()) && Clock().NotBefore(now)
      modifies `segmentTx, `fragmentTx, `cc, `rto, `rttTimer, `rttState, `due, `rtoTimer
      ensures TimerAgrees(Sending())
      ensures whole == (|payload| >= STREAM_ACK_SIZE)
      ensures !whole ==> unchanged(this)
      ensures whole ==> Sending() == AckTaken(old(Sending()), payload, now)
    {
      match DecodeAck(payload)
      case None =>
        whole := false;
      case Some((ack, _)) =>
        HandleAck(ack, now);
        whole := true;
    }

    /** Reads a stream frame: its acknowledgement first, then its segment. */
    method ReadStreamFrame(kind: F.FrameType, payload: seq<byte>, now: time)
      returns (whole: bool, sendAck: bool, ackRel: bool)
      requires TimerAgrees(Sending()) && Clock().NotBefore(now) && IsStream(kind)
      modifies `segmentTx, `fragmentTx, `cc, `rto, `rttTimer, `rttState, `due, `rtoTimer,
               `segmentRx, `unreliableRx, `reliableRx, `received
      ensures TimerAgrees(Sending())
      ensures whole == Whole(kind, payload)
      ensures !whole ==> unchanged(this)
      ensures whole ==> Sending() == SenderAfter(old(Sending()), kind, payload, now)
      ensures whole ==>
        var t := FrameTaken(old(segmentRx), old(Inbox()), kind, payload);
        segmentRx == t.rx && Inbox() == t.mail && sendAck == (t.taken != []) && ackRel == AnyReliable(t.taken)
    {
      hide AckTaken, SegmentTaken;
      whole, sendAck, ackRel := true, false, false;
      var rest := payload;
      if kind != F.StreamSegment {
        whole := ReadAck(payload, now);
        if !whole {
          // Cut short.
          return;
        }
        rest := payload[STREAM_ACK_SIZE..];
      }
      if kind != F.StreamAckOnly {
        sendAck, ackRel := HandleSegment(rest);
      }
    }

    /** A stream frame arrives in the active state: it is read, and what may be sent in answer is sent.
        A frame too short for its acknowledgement is ignored. */
    method HandleStreamFrame(kind: F.FrameType, payload: seq<byte>, now: time) returns (ghost record: seq<Sent>)
      requires Valid() && stateId == Active && Clock().NotBefore(now) && IsStream(kind)
      modifies `segmentTx, `fragmentTx, `cc, `rto, `rttTimer, `rttState, `due, `rtoTimer, `frames,
               `segmentRx, `unreliableRx, `reliableRx, `received
      ensures Valid()
      ensures !Whole(kind, payload) ==> unchanged(this)
      ensures Whole(kind, payload) ==>
        var t := FrameTaken(old(segmentRx), old(Inbox()), kind, payload);
        var s := SenderAfter(old(Sending()), kind, payload, now);
        && segmentRx == t.rx && Inbox() == t.mail && frames == old(frames) + record
        && FlushEnded(FlushStart(s, prio, ReplyTo(t), now), Sending(), record)
    {
      hide FlushEnded, FrameTaken, SenderAfter;
      ghost var t, s := FrameTaken(segmentRx, Inbox(), kind, payload), SenderAfter(Sending(), kind, payload, now);
      SenderAfterIsSound(Sending(), kind, payload, now, timeoutTime);
      var whole, sendAck, ackRel := ReadStreamFrame(kind, payload, now);
      record := [];
      if whole {
        record := Answer(sendAck, ackRel, now, t, s);
      }
    }

    /** Sends the answer owed to a frame, and what else may be sent. */
    method Answer(sendAck: bool, ackRel: bool, now: time, ghost t: Intake, ghost s: Sender)
      returns (ghost record: seq<Sent>)
      requires Sending() == s && Sound(s, timeoutTime) && s.clock.state == Active
      requires segmentRx == t.rx && Inbox() == t.mail && sendAck == (t.taken != []) && ackRel == AnyReliable(t.taken)
      modifies `segmentTx, `fragmentTx, `rttTimer, `due, `rtoTimer, `frames
      ensures Valid() && Inbox() == t.mail && frames == old(frames) + record
      ensures FlushEnded(FlushStart(s, prio, ReplyTo(t), now), Sending(), record)
    {
      hide Flushed;
      var ack := AckDue(sendAck, ackRel);
      record := FlushLoop(ack, now, FlushStart(s, prio, ReplyTo(t), now));
      FlushedIsSound(FlushStart(s, prio, ReplyTo(t), now), Sending(), record, timeoutTime);
    }

    /** Catches up with a sender that lost its way: packets in progress on the unreliable channel are
        dropped, for the identifiers they wait for could now be taken for others. */
    method ApplySync(sync: StreamSync)
      modifies `segmentRx, `unreliableRx, `reliableRx, `received
      ensures segmentRx == SyncedRx(old(segmentRx), sync) && Inbox() == SyncTaken(old(segmentRx), old(Inbox()), sync)
    {
      var log := segmentRx.log;
      segmentRx := SyncedRx(segmentRx, sync);
      var _, _ := TakeSegments(R.Handed(log, segmentRx.log));
      unreliableRx := unreliableRx.Reset();
    }

    /** Applies a sync and answers it with an acknowledgement. */
    method AnswerSync(sync: StreamSync, now: time) returns (ghost record: seq<Sent>)
      requires Valid() && stateId == Active
      modifies `segmentTx, `fragmentTx, `rttTimer, `due, `rtoTimer, `frames,
               `segmentRx, `unreliableRx, `reliableRx, `received
      ensures Valid()
      ensures segmentRx == SyncedRx(old(segmentRx), sync) && Inbox() == SyncTaken(old(segmentRx), old(Inbox()), sync)
      ensures frames == old(frames) + record && record != []
      ensures FlushEnded(FlushStart(old(Sending()), prio, SyncReply(segmentRx, Inbox()), now), Sending(), record)
    {
      hide Flushed;
      ghost var s := Sending();
      ApplySync(sync);
      ghost var inbox := Inbox();
      record := FlushStream(true, true, now);
      assert Inbox() == inbox;
      FlushedIsSound(FlushStart(s, prio, SyncReply(segmentRx, inbox), now), Sending(), record, timeoutTime);
    }

    /** A sync arrives in the active state. */
    method HandleStreamSyncFrame(payload: seq<byte>, now: time) returns (ghost record: seq<Sent>)
      requires Valid() && stateId == Active
      modifies `segmentTx, `fragmentTx, `rttTimer, `due, `rtoTimer, `frames,
               `segmentRx, `unreliableRx, `reliableRx, `received
      ensures Valid()
      ensures match DecodeSync(payload)
        case None => unchanged(this)
        case Some((sync, _)) =>
          && segmentRx == SyncedRx(old(segmentRx), sync)
          && Inbox() == SyncTaken(old(segmentRx), old(Inbox()), sync)
          && frames == old(frames) + record && record != []
          && FlushEnded(FlushStart(old(Sending()), prio, SyncReply(segmentRx, Inbox()), now), Sending(), record)
    {
      record := [];
      match DecodeSync(payload)
      case None =>
      case Some((sync, _)) =>
        record := AnswerSync(sync, now);
    }

    /** A close frame arrives; `genuine` if it carries the right nonce. */
    method HandleClose(genuine: bool, now: time)
      requires Valid()
      modifies `stateId, `due, `rtoTimer, `notices, `frames
      ensures Valid()
      ensures
        if genuine && old(stateId) in {Active, Closing} then
          Clock() == Ended(old(Clock()), now) && frames == old(frames) + [CloseReply]
        else if genuine && old(stateId) == Closed then Clock() == old(Clock()) && frames == old(frames) + [CloseReply]
        else unchanged(this)
    {
      if genuine && stateId in {Active, Closing} {
        frames := frames + [CloseReply];
        EnterClosed(now);
      } else if genuine && stateId == Closed {
        frames := frames + [CloseReply];
      }
    }

    method HandleCloseAck(genuine: bool, now: time)
      requires Valid()
      modifies `stateId, `due, `rtoTimer, `notices
      ensures Valid()
      ensures if genuine && old(stateId) == Closing then Clock() == Ended(old(Clock()), now) else unchanged(this)
    {
      if genuine && stateId == Closing {
        EnterClosed(now);
      }
    }

    ghost function Model(): State
      reads this
    {
      State(Sending(), segmentRx, Inbox(), frames)
    }

    /** A frame arrives, in any state. Unless it holds an acknowledgement or ends the connection it leaves
        a running timer alone. */
    method HandleFrame(kind: F.FrameType, payload: seq<byte>, genuine: bool, now: time)
      returns (ghost record: seq<Sent>)
      requires Valid() && Clock().NotBefore(now)
      modifies this
      ensures Valid()
      ensures FrameHandled(old(Model()), FrameIn(kind, payload, genuine, now), prio, record, Model())
      ensures stateId == if Ends(old(stateId), kind, genuine) then Closed else old(stateId)
      ensures !Ends(old(stateId), kind, genuine) && !(old(stateId) == Active && HasAck(kind)) ==>
        Kept(old(Clock()), Clock(), old(segmentTx).next, now)
    {
      hide FlushEnded, FrameTaken, SenderAfter, SyncedRx, SyncTaken, SyncReply, ReplyTo, Sound, Kept;
      ghost var e := Model();
      record := [];
      if stateId == Active && IsStream(kind) {
        record := HandleStreamFrame(kind, payload, now);
      } else if stateId == Active && kind == F.FrameType.StreamSync {
        record := HandleStreamSyncFrame(payload, now);
      } else if stateId in {Active, Closing, Closed} && kind == F.Close {
        HandleClose(genuine, now);
      } else if stateId == Closing && kind == F.CloseAck {
        HandleCloseAck(genuine, now);
      }
      if !Ends(e.s.clock.state, kind, genuine) && !(e.s.clock.state == Active && HasAck(kind)) {
        HandledKeeps(e, FrameIn(kind, payload, genuine, now), prio, record, Model());
      }
    }

    // ---- the user ----

    method Enqueue(packet: Packet, mode: S.SendMode, now: time)
      requires Valid() && (mode.Unreliable? ==> mode.timeout <= 0xffff)
      modifies `fragmentTx
      ensures Valid()
      ensures fragmentTx == if stateId == Active then old(fragmentTx).Enqueue(packet, mode, now) else old(fragmentTx)
    {
      if stateId == Active {
        S.EnqueueKeepsValid(fragmentTx, packet, mode, now);
        fragmentTx := fragmentTx.Enqueue(packet, mode, now);
      }
    }

    method Flush(now: time) returns (ghost record: seq<Sent>)
      requires Valid()
      modifies `segmentTx, `fragmentTx, `due, `rtoTimer, `rttTimer, `frames
      ensures Valid() && frames == old(frames) + record
      ensures stateId != Active ==> unchanged(this)
      ensures stateId == Active ==> FlushEnded(FlushStart(old(Sending()), prio, None, now), Sending(), record)
    {
      record := [];
      if stateId == Active {
        record := FlushStream(false, false, now);
        FlushedIsSound(FlushStart(old(Sending()), prio, None, now), Sending(), record, timeoutTime);
      }
    }

    // ---- the timer expires ----

    /** The host calls this once its timer is due. The timer state is always there to be found. */
    method HandleRtoTimer(now: time) returns (terminate: bool, ghost record: seq<Sent>)
      requires Valid() && due.Some? && due.value <= now
      modifies `stateId, `notices, `due, `rtoTimer, `rto, `rttTimer, `segmentTx, `fragmentTx, `cc, `frames
      ensures Valid()
      ensures terminate <==> stateId == Zombie && old(stateId) != Zombie
      ensures old(stateId) in {Active, Closing, Closed} ==>
        Steps(old(Clock()), Moment(Expiry, now, old(segmentTx).next, Clock()), timeoutTime)
      ensures match old(stateId)
        case Active =>
          if terminate then
            Sending() == old(Sending()).(clock := Expired(old(Clock()), now, timeoutTime)) && frames == old(frames)
          else
            && FlushEnded(FlushStart(Retried(old(Sending()), now, timeoutTime), prio, None, now), Sending(), record)
            && frames == old(frames) + [Sync(StreamSync(Wire(old(segmentTx).next)))] + record
        case Closing =>
          && Sending() == old(Sending()).(clock := Expired(old(Clock()), now, timeoutTime))
          && frames == old(frames) + if terminate then [] else [CloseRequest]
        case Closed => Sending() == old(Sending()).(clock := old(Clock()).(state := Zombie)) && frames == old(frames)
        case _ => unchanged(this)
    {
      terminate, record := false, [];
      match stateId
      case Active =>
        terminate := Expire(now);
        if !terminate {
          record := Retry(now);
        }
      case Closing =>
        terminate := Expire(now);
        if !terminate {
          // Send another request.
          frames := frames + [CloseRequest];
        }
      case Closed =>
        stateId := Zombie;
        terminate := true;
      case _ =>
    }

    /** After a timeout everything in the reliable queue is sent again. */
    method Retry(now: time) returns (ghost record: seq<Sent>)
      requires Valid() && stateId == Active
      modifies `cc, `segmentTx, `fragmentTx, `due, `rtoTimer, `rttTimer, `frames
      ensures Valid() && frames == old(frames) + [Sync(StreamSync(Wire(old(segmentTx).next)))] + record
      ensures FlushEnded(FlushStart(Resending(old(Sending())), prio, None, now), Sending(), record)
    {
      hide Flushed;
      cc := TimedOutWindow(cc);
      fragmentTx := RewoundQueues(fragmentTx);
      // The pipe has drained: say where the next segment will be.
      frames := frames + [Sync(StreamSync(Wire(segmentTx.next)))];
      ghost var s := Sending();
      record := FlushStream(false, false, now);
      FlushedIsSound(FlushStart(s, prio, None, now), Sending(), record, timeoutTime);
    }

    /** Counts an expiry: gives up, or waits twice as long. */
    method Expire(now: time) returns (terminate: bool)
      requires Valid() && stateId in {Active, Closing} && rtoTimer.Some?
      modifies `stateId, `notices, `due, `rtoTimer, `rto
      ensures Valid() && Clock() == Expired(old(Clock()), now, timeoutTime)
      ensures terminate <==> stateId == Zombie
    {
      ExpiredIsSound(Sending(), now, timeoutTime);
      var sum := rtoTimer.value.sum + rtoTimer.value.rto;
      if sum >= timeoutTime {
        // No acknowledgement for longer than the user is prepared to wait.
        rtoTimer := Some(RtoTimer(rtoTimer.value.rto, sum));
        stateId := Zombie;
        notices := notices + [OnTimeout];
        return true;
      }
      rto := Clamp(2 * rto);
      due := Some(now + rto);
      rtoTimer := Some(RtoTimer(rto, sum));
      return false;
    }

    // ---- closing ----

    method Disconnect(now: time)
      requires Valid()
      modifies `stateId, `due, `rtoTimer, `frames
      ensures Valid()
      ensures
        if old(stateId) == Active then
          && Clock() == old(Clock()).(state := Closing).Started(now) && Armed(Clock(), now)
          && frames == old(frames) + [CloseRequest]
        else unchanged(this)
    {
      if stateId == Active {
        stateId := Closing;
        StartTimer(now);
        frames := frames + [CloseRequest];
      }
    }

    method EnterClosed(now: time)
      requires Valid() && stateId in {Active, Closing}
      modifies `stateId, `due, `rtoTimer, `notices
      ensures Valid() && Clock() == Ended(old(Clock()), now)
    {
      stateId := Closed;
      notices := notices + [OnDisconnect];
      // The host's timer is used to leave the closed state.
      due := Some(now + DISCONNECT_TIMEOUT_MS);
      rtoTimer := None;
    }
  }

  predicate IsStream(kind: F.FrameType) {
    kind in {F.StreamSegment, F.StreamAckOnly, F.StreamSegmentAck}
  }

  predicate HasAck(kind: F.FrameType) {
    kind in {F.StreamAckOnly, F.StreamSegmentAck}
  }

  /** Whether a frame ends the connection. */
  predicate Ends(state: StateId, kind: F.FrameType, genuine: bool) {
    genuine && ((kind == F.Close && state in {Active, Closing}) || (kind == F.CloseAck && state == Closing))
  }

  predicate ShowsDrop(tx: SegmentTx, ack: StreamAck) {
    tx.ReportsDrop(ack.segmentId, Widened(ack.history), ack.checksum)
  }

  function AckedTx(tx: SegmentTx, ack: StreamAck): SegmentTx {
    tx.Acknowledge(ack.segmentId, Widened(ack.history), ack.checksum)
  }

  function AckedQueues(q: FragmentTx, relFragmentId: Option<u32>): FragmentTx {
    if relFragmentId.Some? then
      S.AcknowledgeKeepsValid(q, relFragmentId.value);
      q.Acknowledge(relFragmentId)
    else q
  }

  /** An acknowledgement widens the window; one which reveals a drop may then halve it. */
  function AckedWindow(cc: Congestion, drop: bool): Congestion {
    C.SafeNeverFails(cc);
    C.StepsKeepValid(cc);
    C.StepsKeepValid(cc.Acked());
    if drop then cc.Acked().Dropped() else cc.Acked()
  }

  /** What an acknowledgement does to the sending side; the drop is judged on the state before it. */
  function AckedSender(s: Sender, ack: StreamAck, now: time): Sender
    requires s.clock.NotBefore(now)
  {
    Sender(AckedTx(s.tx, ack), AckedQueues(s.queues, ack.relFragmentId), AckedWindow(s.cc, ShowsDrop(s.tx, ack)),
           Answered(s.clock, ack.segmentId, s.tx.next, now))
  }

  /** Whether an acknowledgement catches up with everything sent can be told from its identifier. */
  lemma {:induction false} AckCatchesUp(tx: SegmentTx, ack: StreamAck)
    ensures var after := AckedTx(tx, ack);
      && after.next == tx.next
      && (tx.base == tx.next ==> after.base == after.next)
      && (tx.base != tx.next ==> (ack.segmentId == Wire(tx.next) <==> after.base == after.next))
  {
    UnwrapWire(tx.base, ack.segmentId);
    if ack.segmentId == Wire(tx.next) {
      UnwrapAhead(tx.base, tx.next);
    }
  }

  /** So the timer stops exactly when everything sent is acknowledged. */
  lemma {:induction false} AckKeepsTimer(s: Sender, ack: StreamAck, now: time)
    requires TimerAgrees(s) && s.clock.NotBefore(now)
    ensures TimerAgrees(AckedSender(s, ack, now))
  {
    AckCatchesUp(s.tx, ack);
  }

  function TimedOutWindow(cc: Congestion): Congestion {
    C.StepsKeepValid(cc);
    cc.TimedOut()
  }

  function RewoundQueues(q: FragmentTx): FragmentTx {
    Reliable.TxStepsKeepValid(q.rel, [], S.FRAGMENT_SIZE, 0);
    q.Rewind()
  }

  /** The sending side after a timeout, about to send everything again. */
  function Resending(s: Sender): Sender {
    Sender(s.tx, RewoundQueues(s.queues), TimedOutWindow(s.cc), s.clock)
  }

  function Retried(s: Sender, now: time, timeout: nat): Sender
    requires s.clock.timer.Some?
  {
    Resending(s.(clock := Expired(s.clock, now, timeout)))
  }

  // ---- what is received ----

  function ReceivedSegment(rx: SegmentRx, header: SegmentHeader, bytes: seq<byte>): SegmentRx {
    var segment := R.Segment(header.nonce, bytes);
    assert rx.Receive(header.id, segment).Valid() by {
      if rx.Takes(header.id) {
        R.ReceiveAccounts(rx, header.id, segment);
      }
    }
    rx.Receive(header.id, segment)
  }

  function SyncedRx(rx: SegmentRx, sync: StreamSync): SegmentRx {
    assert rx.Sync(sync.nextSegmentId).Valid() by {
      if rx.Syncs(sync.nextSegmentId) {
        R.SyncAccounts(rx, sync.nextSegmentId);
      }
    }
    rx.Sync(sync.nextSegmentId)
  }

  /** The receiving side after a frame, and the datagrams it brought to light. */
  datatype Intake = Intake(rx: SegmentRx, mail: Mail, taken: seq<Datagram>)

  /** What a segment makes of the receiving side: its turn comes when the segment layer says so. */
  function SegmentTaken(rx: SegmentRx, m: Mail, src: seq<byte>): Intake {
    match DecodeHeader(src)
    case None => Intake(rx, m, [])
    case Some((header, size)) =>
      var rx' := ReceivedSegment(rx, header, src[size..]);
      var ds := DecodeEach(R.Handed(rx.log, rx'.log));
      Intake(rx', TakeAll(m, ds), ds)
  }

  /** Long enough for the acknowledgement it should hold. */
  predicate Whole(kind: F.FrameType, payload: seq<byte>) {
    kind == F.StreamSegment || |payload| >= STREAM_ACK_SIZE
  }

  function FrameTaken(rx: SegmentRx, m: Mail, kind: F.FrameType, payload: seq<byte>): Intake {
    match kind
    case StreamSegment => SegmentTaken(rx, m, payload)
    case StreamSegmentAck =>
      SegmentTaken(rx, m, if |payload| >= STREAM_ACK_SIZE then payload[STREAM_ACK_SIZE..] else [])
    case _ => Intake(rx, m, [])
  }

  function AckTaken(s: Sender, payload: seq<byte>, now: time): Sender
    requires s.clock.NotBefore(now)
  {
    match DecodeAck(payload)
    case None => s
    case Some((ack, _)) => AckedSender(s, ack, now)
  }

  function SenderAfter(s: Sender, kind: F.FrameType, payload: seq<byte>, now: time): Sender
    requires s.clock.NotBefore(now)
  {
    if kind == F.StreamSegment then s else AckTaken(s, payload, now)
  }

  lemma {:induction false} SenderAfterIsSound(s: Sender, kind: F.FrameType, payload: seq<byte>, now: time, timeout: nat)
    requires Sound(s, timeout) && s.clock.state == Active && s.clock.NotBefore(now)
    ensures Sound(SenderAfter(s, kind, payload, now), timeout)
    ensures SenderAfter(s, kind, payload, now).clock.state == Active
  {
    hide AckedTx, AckedQueues, AckedWindow, ShowsDrop;
    match DecodeAck(payload)
    case None =>
    case Some((ack, _)) => AckKeepsTimer(s, ack, now);
  }

  /** The answer owed: an acknowledgement if there was any datagram, naming the next reliable fragment if
      there was any reliable one. */
  function ReplyTo(t: Intake): Option<StreamAck> {
    if t.taken == [] then None
    else Some(AckOf(t.rx, if AnyReliable(t.taken) then Some(Wire(t.mail.rel.next)) else None))
  }

  /** A sync is always answered, and the next reliable fragment named. */
  function SyncReply(rx: R.Rx, m: Mail): Option<StreamAck> {
    Some(AckOf(rx, Some(Wire(m.rel.next))))
  }

  function SyncTaken(rx: SegmentRx, m: Mail, sync: StreamSync): Mail {
    var taken := TakeAll(m, DecodeEach(R.Handed(rx.log, SyncedRx(rx, sync).log)));
    taken.(unrel := taken.unrel.Reset())
  }

  // ---- what becomes of a frame ----

  /** All there is to an endpoint: what it sends with, what it receives with, and the frames it has sent. */
  datatype State = State(s: Sender, rx: SegmentRx, mail: Mail, frames: seq<Sent>)

  datatype FrameIn = FrameIn(kind: F.FrameType, payload: seq<byte>, genuine: bool, now: time)

  ghost predicate StreamFrameHandled(e: State, f: FrameIn, prio: Priorities, record: seq<Sent>, e': State)
    requires e.s.clock.NotBefore(f.now)
  {
    if Whole(f.kind, f.payload) then
      var t := FrameTaken(e.rx, e.mail, f.kind, f.payload);
      && FlushEnded(FlushStart(SenderAfter(e.s, f.kind, f.payload, f.now), prio, ReplyTo(t), f.now), e'.s, record)
      && e' == State(e'.s, t.rx, t.mail, e.frames + record)
    else e' == e
  }

  ghost predicate SyncFrameHandled(e: State, f: FrameIn, prio: Priorities, record: seq<Sent>, e': State) {
    match DecodeSync(f.payload)
    case None => e' == e
    case Some((sync, _)) =>
      var rx, m := SyncedRx(e.rx, sync), SyncTaken(e.rx, e.mail, sync);
      && FlushEnded(FlushStart(e.s, prio, SyncReply(rx, m), f.now), e'.s, record)
      && e' == State(e'.s, rx, m, e.frames + record)
  }

  /** Whatever comes, in whatever state. */
  ghost predicate FrameHandled(e: State, f: FrameIn, prio: Priorities, record: seq<Sent>, e': State)
    requires e.s.clock.NotBefore(f.now)
  {
    var state := e.s.clock.state;
    if state == Active && IsStream(f.kind) then StreamFrameHandled(e, f, prio, record, e')
    else if state == Active && f.kind == F.FrameType.StreamSync then SyncFrameHandled(e, f, prio, record, e')
    else if f.kind == F.Close && f.genuine && state in {Active, Closing, Closed} then
      var clock := if state == Closed then e.s.clock else Ended(e.s.clock, f.now);
      e' == e.(s := e.s.(clock := clock), frames := e.frames + [CloseReply])
    else if f.kind == F.CloseAck && f.genuine && state == Closing then
      e' == e.(s := e.s.(clock := Ended(e.s.clock, f.now)))
    else e' == e
  }

  lemma {:induction false} HandledKeeps(e: State, f: FrameIn, prio: Priorities, record: seq<Sent>, e': State)
    requires e.s.clock.NotBefore(f.now) && FrameHandled(e, f, prio, record, e')
    requires !Ends(e.s.clock.state, f.kind, f.genuine) && !(e.s.clock.state == Active && HasAck(f.kind))
    ensures Kept(e.s.clock, e'.s.clock, e.s.tx.next, f.now)
  {
    hide FrameTaken, AckTaken, SyncedRx, SyncTaken, SyncReply, ReplyTo, LogCounts, S.Records, FilledInTurn;
  }
}
