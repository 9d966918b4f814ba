/** Filling a frame: the two send queues, the scheduler between them, and the frame they share. */
module Sending {
  import opened Words
  import opened Fragments
  import opened Codec
  import F = Frame
  import P = Prio
  import R = Reliable
  import U = Unreliable

  const FRAGMENT_SIZE: nat := 1024
  const UNREL: nat := 0
  const REL: nat := 1

  // ---- the queues as values ----

  datatype Queues = Queues(unrel: U.Tx, rel: R.Tx, counters: seq<u32>) {
    predicate Valid() {
      && rel.Valid() && |counters| == P.CHANNELS
      && (forall e :: e in unrel.queue ==> |e.fragment.data| <= FRAGMENT_SIZE)
      && (forall f :: f in rel.queue ==> |f.data| <= FRAGMENT_SIZE)
    }

    function Expire(now: u64): Queues {
      this.(unrel := unrel.Expire(now))
    }

    predicate DataReady(now: u64) {
      Expire(now).unrel.queue != [] || rel.CanSend()
    }

    /** The channel to send from next. */
    function Next(): (channel: Option<nat>)
      requires Valid()
      ensures channel.Some? ==> channel.value in {UNREL, REL}
      ensures channel == Some(UNREL) ==> unrel.queue != []
      ensures channel == Some(REL) ==> rel.CanSend()
      ensures channel.None? <==> unrel.queue == [] && !rel.CanSend()
    {
      var ready := [unrel.queue != [], rel.CanSend(), false, false];
      assert ready[0] == (unrel.queue != []) && ready[1] == rel.CanSend();
      P.Choice(counters, ready)
    }

    /** The fragment that would leave a channel, as it is written. */
    function Head(channel: nat): Datagram
      requires Valid() && Next() == Some(channel)
    {
      if channel == UNREL then AsDatagram(unrel.queue[0].fragment, unrel.next, true)
      else AsDatagram(rel.queue[rel.next - rel.base], rel.next, false)
    }

    function Pop(channel: nat, config: P.Config): Queues
      requires Valid() && Next() == Some(channel) && |config.weights| == P.CHANNELS
    {
      var cost := |Head(channel).data| * config.weights[channel];
      var charged := this.(counters := P.Charge(counters, channel, cost, config.counterMax));
      if channel == UNREL then charged.(unrel := unrel.Send()) else charged.(rel := rel.Send())
    }

    function Enqueue(packet: Packet, mode: SendMode, now: u64): Queues
      requires mode.Unreliable? ==> now + mode.timeout + 1 < 0x1_0000_0000_0000_0000
    {
      match mode
      case Reliable => this.(rel := rel.Enqueue(packet, FRAGMENT_SIZE))
      case Unreliable(timeout) => this.(unrel := unrel.Enqueue(packet, now + timeout + 1, FRAGMENT_SIZE))
    }

    function Acknowledge(id: Option<u32>): Queues
      requires Valid()
    {
      if id.Some? then this.(rel := rel.Acknowledge(id.value)) else this
    }

    function Rewind(): Queues {
      this.(rel := rel.Rewind())
    }

    /** How many fragments could still be sent. */
    function Size(): nat
      requires Valid()
    {
      |unrel.queue| + (rel.base + |rel.queue| - rel.next)
    }
  }

  function AsDatagram(f: Fragment, index: nat, unrel: bool): Datagram {
    Datagram(Wire(index), unrel, f.first, f.last, f.data)
  }

  lemma {:induction false} ExpireKeepsValid(q: Queues, now: u64)
    requires q.Valid()
    ensures q.Expire(now).Valid() && q.Expire(now).Size() <= q.Size()
  {
    U.UnexpiredIsSuffix(q.unrel.queue, now);
  }

  lemma {:induction false} ExpireTwice(q: Queues, now: u64)
    ensures q.Expire(now).DataReady(now) == q.DataReady(now) && q.Expire(now).Expire(now) == q.Expire(now)
  {
    UnexpiredTwice(q.unrel.queue, now);
  }

  lemma {:induction false} UnexpiredTwice(queue: seq<U.Entry>, now: u64)
    ensures U.Unexpired(U.Unexpired(queue, now), now) == U.Unexpired(queue, now)
    decreases |queue|
  {
    if queue != [] && queue[0].expireTime <= now {
      UnexpiredTwice(queue[1..], now);
    }
  }

  lemma {:induction false} PopKeepsValid(q: Queues, channel: nat, config: P.Config)
    requires q.Valid() && q.Next() == Some(channel) && |config.weights| == P.CHANNELS
    ensures q.Pop(channel, config).Valid() && q.Pop(channel, config).Size() < q.Size()
    ensures Sendable(q.Head(channel)) && DatagramSize(q.Head(channel)) <= DATAGRAM_HEADER_SIZE + FRAGMENT_SIZE
  {
    if channel == UNREL {
      assert q.unrel.queue[0] in q.unrel.queue;
    } else {
      assert q.rel.queue[q.rel.next - q.rel.base] in q.rel.queue;
    }
  }

  /** Everything a frame with `space` left takes from the queues: while the head of the chosen channel
      fits it is written and popped. */
  function Filled(q: Queues, config: P.Config, now: u64, space: int): (r: (Queues, seq<Datagram>))
    requires q.Valid() && |config.weights| == P.CHANNELS
    ensures r.0.Valid() && forall d :: d in r.1 ==> Sendable(d)
    decreases q.Size()
  {
    ExpireKeepsValid(q, now);
    var due := q.Expire(now);
    match due.Next()
    case None => (due, [])
    case Some(channel) =>
      PopKeepsValid(due, channel, config);
      var d := due.Head(channel);
      if DatagramSize(d) > space then (due, [])
      else
        var rest := Filled(due.Pop(channel, config), config, now, space - DatagramSize(d));
        (rest.0, [d] + rest.1)
  }

  function DataSize(ds: seq<Datagram>): nat
    decreases |ds|
  {
    if ds == [] then 0 else |ds[0].data| + DataSize(ds[1..])
  }

  /** One step of filling: the datagram written, if any, and the queues after it. */
  function FillOne(q: Queues, config: P.Config, now: u64, space: int): (r: (Queues, Option<Datagram>))
    requires q.Valid() && |config.weights| == P.CHANNELS
    ensures r.0.Valid()
  {
    ExpireKeepsValid(q, now);
    var due := q.Expire(now);
    match due.Next()
    case None => (due, None)
    case Some(channel) =>
      PopKeepsValid(due, channel, config);
      var d := due.Head(channel);
      if DatagramSize(d) > space then (due, None) else (due.Pop(channel, config), Some(d))
  }

  lemma {:induction false} FilledStep(q: Queues, config: P.Config, now: u64, space: int)
    requires q.Valid() && |config.weights| == P.CHANNELS
    ensures var one, all := FillOne(q, config, now, space), Filled(q, config, now, space);
      if one.1.None? then all == (one.0, [])
      else
        && one.0.Size() < q.Size()
        && var rest := Filled(one.0, config, now, space - DatagramSize(one.1.value));
           all == (rest.0, [one.1.value] + rest.1)
  {
    ExpireKeepsValid(q, now);
    var due := q.Expire(now);
    if due.Next().Some? {
      PopKeepsValid(due, due.Next().value, config);
    }
  }

  datatype SendMode = Reliable | Unreliable(timeout: nat)

  class FragmentTxBuffers {
    const unrel: U.TxBuffer
    const rel: R.TxBuffer
    const prio: P.Prio

    ghost function Model(): Queues
      reads unrel, rel, prio, prio.counters
    {
      Queues(unrel.Model(), rel.Model(), prio.counters[..])
    }

    ghost function Config(): P.Config
      reads prio
    {
      P.Config(prio.weights, prio.counterMax)
    }

    ghost predicate Valid()
      reads unrel, rel, prio, prio.counters
    {
      && unrel.Valid() && rel.Valid() && prio.Valid() && Model().Valid()
      && unrel.fragmentSize == rel.fragmentSize == FRAGMENT_SIZE
    }

    constructor (baseId: u32, windowSize: u32, config: P.Config)
      requires windowSize > 0 && config.Valid()
      ensures Valid() && Config() == config
      ensures Model() == Queues(U.Tx([], baseId), R.Tx(baseId, baseId, baseId, [], windowSize, 0), [0, 0, 0, 0])
      ensures fresh(unrel) && fresh(rel) && fresh(prio) && fresh(prio.counters)
    {
      unrel := new U.TxBuffer(baseId, FRAGMENT_SIZE);
      rel := new R.TxBuffer(baseId, FRAGMENT_SIZE, windowSize);
      prio := new P.Prio(config);
    }

    /** One round of `Flush`. */
    method FlushOne(writer: F.FrameWriter, now: u64) returns (written: Option<Datagram>)
      requires Valid() && writer.Valid()
      modifies unrel, rel, prio.counters, writer`writeIdx, writer.buffer
      ensures Valid() && writer.Valid()
      ensures (Model(), written) ==
              FillOne(old(Model()), Config(), now, writer.buffer.Length - F.FRAME_CRC_SIZE - old(writer.writeIdx))
      ensures writer.Written() == old(writer.Written()) + if written.Some? then EncodeDatagram(written.value) else []
      ensures writer.writeIdx == old(writer.writeIdx) + if written.Some? then DatagramSize(written.value) else 0
    {
      ExpireKeepsValid(Model(), now);
      hide Queues.Valid;
      ghost var due := Model().Expire(now);
      unrel.PopExpired(now);
      var unrelNext := unrel.PeekSendable();
      var relNext := rel.PeekSendable();

      var channel := prio.Next(unrelNext.Some?, relNext.Some?, false, false);
      P.ChoiceIsUnique(prio.counters[..], [unrelNext.Some?, relNext.Some?, false, false], channel);
      assert due == Model() && channel == due.Next();
      if channel.None? {
        return None;
      }

      var next := if channel.value == UNREL then unrelNext.value else relNext.value;
      var fragment := next.1;
      var datagram := Datagram(next.0, channel.value == UNREL, fragment.first, fragment.last, fragment.data);
      assert datagram == due.Head(channel.value);
      PopKeepsValid(due, channel.value, Config());
      var fits := writer.Write(EncodeDatagram(datagram));
      if !fits {
        // No more datagrams can be written.
        return None;
      }

      Remove(channel.value, |datagram.data|);
      return Some(datagram);
    }

    /** The fragment written is charged and leaves its queue. */
    method Remove(channel: nat, dataSize: nat)
      requires Valid() && Model().Next() == Some(channel) && dataSize == |Model().Head(channel).data| <= FRAGMENT_SIZE
      modifies unrel, rel, prio.counters
      ensures Valid() && Model() == old(Model()).Pop(channel, Config())
    {
      PopKeepsValid(Model(), channel, Config());
      prio.MarkSent(channel, dataSize);
      if channel == UNREL {
        var _ := unrel.PopSendable();
      } else {
        var _ := rel.PopSendable();
      }
    }

    /** Writes as much as fits into a frame; returns how many bytes of data that was. */
    method Flush(writer: F.FrameWriter, now: u64) returns (dataSizeTotal: nat, ghost ds: seq<Datagram>)
      requires Valid() && writer.Valid()
      modifies unrel, rel, prio.counters, writer`writeIdx, writer.buffer
      ensures Valid() && writer.Valid()
      ensures (Model(), ds) ==
              Filled(old(Model()), Config(), now, writer.buffer.Length - F.FRAME_CRC_SIZE - old(writer.writeIdx))
      ensures writer.Written() == old(writer.Written()) + EncodeAll(ds)
      ensures dataSizeTotal == DataSize(ds)
      ensures dataSizeTotal == 0 <==>
        OnlyEmptiesFit(Line(old(Model()), now), writer.buffer.Length - F.FRAME_CRC_SIZE - old(writer.writeIdx))
    {
      hide Filled, FillOne, Filling, Line, OnlyEmptiesFit, Queues.Valid, EncodeAll, DataSize;
      NoDataExactly(Model(), Config(), now, writer.buffer.Length - F.FRAME_CRC_SIZE - writer.writeIdx);
      ghost var config, begun := Config(), writer.Written();
      ghost var q, space := Model(), writer.buffer.Length - F.FRAME_CRC_SIZE - writer.writeIdx;
      ghost var q0, space0, all := q, space, Filled(q, config, now, space);
      dataSizeTotal, ds := 0, [];
      FillingStarts(q, space, config, now);
      while true
        invariant Valid() && writer.Valid() && Config() == config && q == Model()
        invariant space == writer.buffer.Length - F.FRAME_CRC_SIZE - writer.writeIdx
        invariant Filling(q0, space0, ds, q, space, config, now)
        invariant writer.Written() == begun + EncodeAll(ds)
        invariant dataSizeTotal == DataSize(ds)
        decreases q.Size()
      {
        var written := FlushOne(writer, now);
        if written.None? {
          FillingEnds(q0, space0, ds, q, space, config, now, Model());
          assert (Model(), ds) == all;
          return;
        }
        FillingNext(q0, space0, ds, q, space, config, now, Model(), written.value);
        WrittenNext(begun, ds, written.value);
        dataSizeTotal := dataSizeTotal + |written.value.data|;
        ds := ds + [written.value];
        q, space := Model(), space - DatagramSize(written.value);
      }
    }

    /** A whole frame, written in place: the acknowledgement if there is one, then, if there is a header,
        the header and as much as fits. */
    method WriteFrame(buffer: array<byte>, ack: Option<StreamAck>, header: Option<SegmentHeader>, now: u64)
      returns (frame: seq<byte>, dataSize: nat, ghost c: F.Content)
      requires Valid() && buffer.Length == F.FRAME_SIZE_MAX && (ack.Some? || header.Some?)
      modifies unrel, rel, prio.counters, buffer
      ensures Valid() && c.ack == ack && (c.segment.Some? <==> header.Some?)
      ensures header.Some? ==>
        && c.segment.value.0 == header.value && dataSize == DataSize(c.segment.value.1)
        && (Model(), c.segment.value.1) == Filled(old(Model()), Config(), now, RoomFor(ack))
      ensures header.None? ==> Model() == old(Model())
      ensures frame == F.FrameOf(c) && |frame| <= F.FRAME_SIZE_MAX
    {
      hide Filled, EncodeAll, EncodeHeader, EncodeAck, DataSize, Queues.Valid, F.Sealed;
      var kind := if header.None? then F.StreamAckOnly else if ack.None? then F.StreamSegment else F.StreamSegmentAck;
      var writer := BeginFrame(buffer, kind, ack);
      dataSize, c := 0, F.Content(ack, None);
      if header.Some? {
        ghost var ds;
        dataSize, ds := WriteSegment(writer, header.value, now);
        c := F.Content(ack, Some((header.value, ds)));
      }
      InOrder(F.TypeBits(kind), F.AckBytes(ack), F.SegmentBytes(c));
      frame := writer.Finalize();
    }

    method WriteSegment(writer: F.FrameWriter, header: SegmentHeader, now: u64)
      returns (dataSize: nat, ghost ds: seq<Datagram>)
      requires Valid() && writer.Valid()
      requires writer.writeIdx + SEGMENT_HEADER_SIZE + F.FRAME_CRC_SIZE <= writer.buffer.Length
      modifies unrel, rel, prio.counters, writer`writeIdx, writer.buffer
      ensures Valid() && writer.Valid() && dataSize == DataSize(ds)
      ensures writer.Written() == old(writer.Written()) + (EncodeHeader(header) + EncodeAll(ds))
      ensures (Model(), ds) ==
              Filled(old(Model()), Config(), now,
                     writer.buffer.Length - F.FRAME_CRC_SIZE - old(writer.writeIdx) - SEGMENT_HEADER_SIZE)
    {
      hide Filled, OnlyEmptiesFit, Line, EncodeAll, Queues.Valid;
      ghost var begun := writer.Written();
      var _ := writer.Write(EncodeHeader(header));
      dataSize, ds := Flush(writer, now);
      Concat(begun, EncodeHeader(header), EncodeAll(ds));
    }

    method DataReady(now: u64) returns (ready: bool)
      requires Valid()
      modifies unrel
      ensures Valid() && Model() == old(Model()).Expire(now)
      ensures ready == old(Model()).DataReady(now)
    {
      ExpireKeepsValid(Model(), now);
      unrel.PopExpired(now);
      var unrelNext := unrel.PeekSendable();
      var relNext := rel.PeekSendable();
      ready := unrelNext.Some? || relNext.Some?;
    }

    method Enqueue(packet: Packet, mode: SendMode, now: u64)
      requires Valid() && (mode.Unreliable? ==> now + mode.timeout + 1 < 0x1_0000_0000_0000_0000)
      modifies unrel, rel
      ensures Valid() && Model() == old(Model()).Enqueue(packet, mode, now)
    {
      EnqueueKeepsValid(Model(), packet, mode, now);
      match mode
      case Reliable =>
        rel.Push(packet);
      case Unreliable(timeout) =>
        unrel.Push(packet, now + timeout + 1);
    }

    method Acknowledge(relFragmentId: Option<u32>)
      requires Valid()
      modifies rel
      ensures Valid() && Model() == old(Model()).Acknowledge(relFragmentId)
    {
      if relFragmentId.Some? {
        AcknowledgeKeepsValid(Model(), relFragmentId.value);
        var _ := rel.Acknowledge(relFragmentId.value);
      }
    }

    method HandleTimeout()
      requires Valid()
      modifies rel
      ensures Valid() && Model() == old(Model()).Rewind()
    {
      rel.ResendAll();
    }
  }

  method BeginFrame(buffer: array<byte>, kind: F.FrameType, ack: Option<StreamAck>) returns (writer: F.FrameWriter)
    requires buffer.Length == F.FRAME_SIZE_MAX
    modifies buffer
    ensures fresh(writer) && writer.buffer == buffer && writer.Valid()
    ensures writer.Written() == [F.TypeBits(kind)] + F.AckBytes(ack)
  {
    writer := new F.FrameWriter(buffer, kind);
    if ack.Some? {
      var _ := writer.Write(EncodeAck(ack.value));
    }
  }

  lemma {:induction false} InOrder(kind: byte, ack: seq<byte>, segment: seq<byte>)
    ensures [kind] + ack + segment == [kind] + (ack + segment)
    ensures [kind] + ack + [] == [kind] + ack
  {
  }

  /** The room a frame leaves for datagrams. */
  function RoomFor(ack: Option<StreamAck>): nat {
    F.FRAME_SIZE_MAX - F.FRAME_CRC_SIZE - F.FRAME_HEADER_SIZE - SEGMENT_HEADER_SIZE
    - if ack.Some? then STREAM_ACK_SIZE else 0
  }

  lemma {:induction false} EnqueueKeepsValid(q: Queues, packet: Packet, mode: SendMode, now: u64)
    requires q.Valid() && (mode.Unreliable? ==> now + mode.timeout + 1 < 0x1_0000_0000_0000_0000)
    ensures q.Enqueue(packet, mode, now).Valid()
  {
    forall i | 0 <= i < |Fragmentize(packet, FRAGMENT_SIZE)|
      ensures |Fragmentize(packet, FRAGMENT_SIZE)[i].data| <= FRAGMENT_SIZE
    {
      SplitShape(packet, true, FRAGMENT_SIZE, i);
    }
  }

  lemma {:induction false} AcknowledgeKeepsValid(q: Queues, id: u32)
    requires q.Valid()
    ensures q.(rel := q.rel.Acknowledge(id)).Valid()
  {
    R.TxStepsKeepValid(q.rel, [], FRAGMENT_SIZE, id);
  }

  /** After `ds` the rest of the filling is that of `q` with `space` left. */
  ghost predicate Filling(q0: Queues, space0: int, ds: seq<Datagram>, q: Queues, space: int, config: P.Config, now: u64)
    requires q0.Valid() && q.Valid() && |config.weights| == P.CHANNELS
  {
    && Filled(q0, config, now, space0).0 == Filled(q, config, now, space).0
    && Filled(q0, config, now, space0).1 == ds + Filled(q, config, now, space).1
  }

  lemma {:induction false} WrittenNext(begun: seq<byte>, ds: seq<Datagram>, d: Datagram)
    ensures begun + EncodeAll(ds) + EncodeDatagram(d) == begun + EncodeAll(ds + [d])
    ensures DataSize(ds + [d]) == DataSize(ds) + |d.data|
  {
    EncodeAllAppend(ds, d);
    DataSizeAppend(ds, d);
    Concat(begun, EncodeAll(ds), EncodeDatagram(d));
  }

  lemma {:induction false} DataSizeAppend(ds: seq<Datagram>, d: Datagram)
    ensures DataSize(ds + [d]) == DataSize(ds) + |d.data|
    decreases |ds|
  {
    if ds != [] {
      DataSizeAppend(ds[1..], d);
      assert (ds + [d])[1..] == ds[1..] + [d];
    } else {
      assert [d][1..] == [];
    }
  }

  lemma {:induction false} FillingStarts(q: Queues, space: int, config: P.Config, now: u64)
    requires q.Valid() && |config.weights| == P.CHANNELS
    ensures Filling(q, space, [], q, space, config, now) && EncodeAll([]) == [] && DataSize([]) == 0
  {
    var ds := Filled(q, config, now, space).1;
    assert [] + ds == ds;
  }

  lemma {:induction false} FillingNext(q0: Queues, space0: int, ds: seq<Datagram>, q: Queues, space: int,
                                       config: P.Config, now: u64, q': Queues, d: Datagram)
    requires q0.Valid() && q.Valid() && |config.weights| == P.CHANNELS
    requires Filling(q0, space0, ds, q, space, config, now) && FillOne(q, config, now, space) == (q', Some(d))
    ensures q'.Valid() && q'.Size() < q.Size()
    ensures Filling(q0, space0, ds + [d], q', space - DatagramSize(d), config, now)
  {
    FilledStep(q, config, now, space);
    Regroup(ds, d, Filled(q', config, now, space - DatagramSize(d)).1);
  }

  lemma {:induction false} Regroup(ds: seq<Datagram>, d: Datagram, rest: seq<Datagram>)
    ensures ds + ([d] + rest) == ds + [d] + rest
  {
  }

  lemma {:induction false} FillingEnds(q0: Queues, space0: int, ds: seq<Datagram>, q: Queues, space: int,
                                       config: P.Config, now: u64, q': Queues)
    requires q0.Valid() && q.Valid() && |config.weights| == P.CHANNELS
    requires Filling(q0, space0, ds, q, space, config, now) && FillOne(q, config, now, space) == (q', None)
    ensures Filled(q0, config, now, space0) == (q', ds)
  {
    FilledStep(q, config, now, space);
    var all := Filled(q0, config, now, space0);
    assert all.0 == q' && all.1 == ds + [] == ds;
  }

  // ---- a frame is a faithful record of what left the queues ----

  lemma {:induction false} EncodeAllSize(d: Datagram, ds: seq<Datagram>)
    ensures |EncodeAll([d] + ds)| == DatagramSize(d) + |EncodeAll(ds)|
  {
    assert ([d] + ds)[1..] == ds;
  }

  /** What is written fits, and the next fragment would not have. */
  lemma {:induction false} FilledToTheBrim(q: Queues, config: P.Config, now: u64, space: int)
    requires q.Valid() && |config.weights| == P.CHANNELS && space >= 0
    ensures var (q', ds) := Filled(q, config, now, space);
      && |EncodeAll(ds)| <= space
      && (q'.Next().Some? ==> |EncodeAll(ds)| + DatagramSize(q'.Head(q'.Next().value)) > space)
    decreases q.Size()
  {
    FilledStep(q, config, now, space);
    var (next, written) := FillOne(q, config, now, space);
    if written.Some? {
      var left := space - DatagramSize(written.value);
      FilledToTheBrim(next, config, now, left);
      EncodeAllSize(written.value, Filled(next, config, now, left).1);
    }
  }

  /** With data ready and room for the largest fragment at least one datagram is written. */
  lemma {:induction false} FilledNotEmpty(q: Queues, config: P.Config, now: u64, space: int)
    requires q.Valid() && |config.weights| == P.CHANNELS
    requires q.DataReady(now) && space >= DATAGRAM_HEADER_SIZE + FRAGMENT_SIZE
    ensures Filled(q, config, now, space).1 != []
    ensures Filled(q, config, now, space).0.Size() < q.Size()
  {
    ExpireKeepsValid(q, now);
    var due := q.Expire(now);
    PopKeepsValid(due, due.Next().value, config);
    FilledStep(q, config, now, space);
    FilledShrinks(FillOne(q, config, now, space).0, config, now, space - DatagramSize(due.Head(due.Next().value)));
  }

  lemma {:induction false} FilledShrinks(q: Queues, config: P.Config, now: u64, space: int)
    requires q.Valid() && |config.weights| == P.CHANNELS
    ensures Filled(q, config, now, space).0.Size() <= q.Size()
    decreases q.Size()
  {
    ExpireKeepsValid(q, now);
    FilledStep(q, config, now, space);
    var (next, written) := FillOne(q, config, now, space);
    if written.Some? {
      FilledShrinks(next, config, now, space - DatagramSize(written.value));
    }
  }

  /** Nothing more expires. */
  lemma {:induction false} FilledIsExpired(q: Queues, config: P.Config, now: u64, space: int)
    requires q.Valid() && |config.weights| == P.CHANNELS
    ensures Filled(q, config, now, space).0.Expire(now) == Filled(q, config, now, space).0
    decreases q.Size()
  {
    ExpireKeepsValid(q, now);
    FilledStep(q, config, now, space);
    ExpireTwice(q, now);
    var (next, written) := FillOne(q, config, now, space);
    if written.Some? {
      FilledIsExpired(next, config, now, space - DatagramSize(written.value));
    }
  }

  /** The entries not yet expired, in order. */
  function Fresh(queue: seq<U.Entry>, now: u64): seq<U.Entry>
    decreases |queue|
  {
    if queue == [] then []
    else if queue[0].expireTime > now then [queue[0]] + Fresh(queue[1..], now)
    else Fresh(queue[1..], now)
  }

  lemma {:induction false} FreshAfterExpiry(queue: seq<U.Entry>, now: u64)
    ensures Fresh(U.Unexpired(queue, now), now) == Fresh(queue, now)
    ensures U.Unexpired(queue, now) != [] ==> U.Unexpired(queue, now)[0].expireTime > now
    decreases |queue|
  {
    if queue != [] && queue[0].expireTime <= now {
      FreshAfterExpiry(queue[1..], now);
    }
  }

  lemma {:induction false} FreshHead(queue: seq<U.Entry>, now: u64)
    ensures var due, all := U.Unexpired(queue, now), Fresh(queue, now);
      && (due == [] <==> all == [])
      && (due != [] ==> all[0] == due[0] && all[1..] == Fresh(due[1..], now))
    decreases |queue|
  {
    if queue != [] {
      if queue[0].expireTime <= now {
        FreshHead(queue[1..], now);
      } else {
        assert U.Unexpired(queue, now) == queue;
        assert Fresh(queue, now)[1..] == Fresh(queue[1..], now);
      }
    }
  }

  /** The datagrams of one channel, in order. */
  function Of(ds: seq<Datagram>, unrel: bool): seq<Datagram>
    decreases |ds|
  {
    if ds == [] then [] else (if ds[0].unrel == unrel then [ds[0]] else []) + Of(ds[1..], unrel)
  }

  function UnrelDatagrams(entries: seq<U.Entry>, from: nat): (ds: seq<Datagram>)
    ensures |ds| == |entries|
    decreases |entries|
  {
    if entries == [] then []
    else [AsDatagram(entries[0].fragment, from, true)] + UnrelDatagrams(entries[1..], from + 1)
  }

  function RelDatagrams(fragments: seq<Fragment>, from: nat): (ds: seq<Datagram>)
    ensures |ds| == |fragments|
    decreases |fragments|
  {
    if fragments == [] then []
    else [AsDatagram(fragments[0], from, false)] + RelDatagrams(fragments[1..], from + 1)
  }

  /** The unreliable datagrams among `ds` are the first entries of `before`, numbered on from `from`;
      the rest of `before` is left. */
  ghost predicate UnrelRecord(before: seq<U.Entry>, from: nat, after: seq<U.Entry>, to: nat, ds: seq<Datagram>) {
    && from <= to <= from + |before|
    && Of(ds, true) == UnrelDatagrams(before[..to - from], from)
    && after == before[to - from..]
  }

  /** Likewise the reliable ones, which are not removed. */
  ghost predicate RelRecord(pending: seq<Fragment>, from: nat, to: nat, ds: seq<Datagram>) {
    && from <= to <= from + |pending|
    && Of(ds, false) == RelDatagrams(pending[..to - from], from)
  }

  lemma {:induction false} OfFirst(d: Datagram, ds: seq<Datagram>, unrel: bool)
    ensures Of([d] + ds, unrel) == (if d.unrel == unrel then [d] else []) + Of(ds, unrel)
  {
    assert ([d] + ds)[1..] == ds;
  }

  lemma {:induction false} UnrelRecordNext(before: seq<U.Entry>, from: nat, after: seq<U.Entry>, to: nat,
                                           ds: seq<Datagram>)
    requires before != [] && UnrelRecord(before[1..], from + 1, after, to, ds)
    ensures UnrelRecord(before, from, after, to, [AsDatagram(before[0].fragment, from, true)] + ds)
  {
    OfFirst(AsDatagram(before[0].fragment, from, true), ds, true);
    assert before[..to - from][1..] == before[1..][..to - from - 1];
    assert before[to - from..] == before[1..][to - from - 1..];
  }

  lemma {:induction false} RelRecordNext(pending: seq<Fragment>, from: nat, to: nat, ds: seq<Datagram>)
    requires pending != [] && RelRecord(pending[1..], from + 1, to, ds)
    ensures RelRecord(pending, from, to, [AsDatagram(pending[0], from, false)] + ds)
  {
    OfFirst(AsDatagram(pending[0], from, false), ds, false);
    assert pending[..to - from][1..] == pending[1..][..to - from - 1];
  }

  function Pending(rel: R.Tx): seq<Fragment>
    requires rel.Valid()
  {
    rel.queue[rel.next - rel.base..]
  }

  /** Whatever the queues hold: a frame's unreliable datagrams are the first entries not yet expired,
      its reliable ones the next fragments to be sent, each in order and under consecutive
      identifiers; and just these have left. */
  ghost predicate Records(q: Queues, now: u64, q': Queues, ds: seq<Datagram>)
    requires q.Valid() && q'.Valid()
  {
    match q
    case Queues(unrel, rel, _) =>
      && UnrelRecord(Fresh(unrel.queue, now), unrel.next, Fresh(q'.unrel.queue, now), q'.unrel.next, ds)
      && RelRecord(Pending(rel), rel.next, q'.rel.next, ds)
      && q'.rel.base == rel.base && q'.rel.queue == rel.queue
  }

  lemma {:induction false} RecordsNothing(q: Queues, now: u64)
    requires q.Valid() && q.Expire(now).Valid()
    ensures Records(q, now, q.Expire(now), [])
  {
    FreshAfterExpiry(q.unrel.queue, now);
    assert Fresh(q.unrel.queue, now)[..0] == [] && Fresh(q.unrel.queue, now)[0..] == Fresh(q.unrel.queue, now);
    assert Pending(q.rel)[..0] == [];
  }

  /** A datagram of one channel leaves the other's record as it is. */
  lemma {:induction false} RelRecordSkips(pending: seq<Fragment>, from: nat, to: nat, d: Datagram, ds: seq<Datagram>)
    requires RelRecord(pending, from, to, ds) && d.unrel
    ensures RelRecord(pending, from, to, [d] + ds)
  {
    OfFirst(d, ds, false);
  }

  lemma {:induction false} UnrelRecordSkips(before: seq<U.Entry>, from: nat, after: seq<U.Entry>, to: nat,
                                            d: Datagram, ds: seq<Datagram>)
    requires UnrelRecord(before, from, after, to, ds) && !d.unrel
    ensures UnrelRecord(before, from, after, to, [d] + ds)
  {
    OfFirst(d, ds, true);
  }

  lemma {:induction false} RecordsUnrel(q: Queues, now: u64, config: P.Config, q': Queues, ds: seq<Datagram>)
    requires q.Valid() && q.Expire(now).Valid() && q.Expire(now).Next() == Some(UNREL) && |config.weights| == P.CHANNELS
    requires q.Expire(now).Pop(UNREL, config).Valid() && q'.Valid()
    requires Records(q.Expire(now).Pop(UNREL, config), now, q', ds)
    ensures Records(q, now, q', [q.Expire(now).Head(UNREL)] + ds)
  {
    hide UnrelRecord, RelRecord, Fresh, P.Charge, P.Choice;
    var due, all := q.Expire(now), Fresh(q.unrel.queue, now);
    FreshHead(q.unrel.queue, now);
    UnrelRecordNext(all, q.unrel.next, Fresh(q'.unrel.queue, now), q'.unrel.next, ds);
    RelRecordSkips(Pending(q.rel), q.rel.next, q'.rel.next, due.Head(UNREL), ds);
  }

  lemma {:induction false} RecordsRel(q: Queues, now: u64, config: P.Config, q': Queues, ds: seq<Datagram>)
    requires q.Valid() && q.Expire(now).Valid() && q.Expire(now).Next() == Some(REL) && |config.weights| == P.CHANNELS
    requires q.Expire(now).Pop(REL, config).Valid() && q'.Valid()
    requires Records(q.Expire(now).Pop(REL, config), now, q', ds)
    ensures Records(q, now, q', [q.Expire(now).Head(REL)] + ds)
  {
    hide UnrelRecord, RelRecord, Fresh, P.Charge, P.Choice;
    var due, pending := q.Expire(now), Pending(q.rel);
    FreshAfterExpiry(q.unrel.queue, now);
    assert pending[0] == q.rel.queue[q.rel.next - q.rel.base];
    assert pending[1..] == q.rel.queue[q.rel.next + 1 - q.rel.base..];
    RelRecordNext(pending, q.rel.next, q'.rel.next, ds);
    UnrelRecordSkips(Fresh(q.unrel.queue, now), q.unrel.next, Fresh(q'.unrel.queue, now), q'.unrel.next,
                     due.Head(REL), ds);
  }

  lemma {:induction false} FilledRecords(q: Queues, config: P.Config, now: u64, space: int)
    requires q.Valid() && |config.weights| == P.CHANNELS
    ensures Records(q, now, Filled(q, config, now, space).0, Filled(q, config, now, space).1)
    decreases q.Size()
  {
    ExpireKeepsValid(q, now);
    FilledStep(q, config, now, space);
    var (next, written) := FillOne(q, config, now, space);
    if written.None? {
      RecordsNothing(q, now);
    } else {
      var left := space - DatagramSize(written.value);
      FilledRecords(next, config, now, left);
      if q.Expire(now).Next() == Some(UNREL) {
        RecordsUnrel(q, now, config, Filled(next, config, now, left).0, Filled(next, config, now, left).1);
      } else {
        RecordsRel(q, now, config, Filled(next, config, now, left).0, Filled(next, config, now, left).1);
      }
    }
  }

  lemma {:induction false} Front<X>(a: seq<X>, b: seq<X>)
    requires a != []
    ensures a == [a[0]] + a[1..] && a + b == [a[0]] + (a[1..] + b)
  {
  }

  lemma {:induction false} Assoc<X>(a: seq<X>, b: seq<X>, c: seq<X>)
    ensures a + (b + c) == a + b + c
  {
  }

  lemma {:induction false} OfAppend(a: seq<Datagram>, b: seq<Datagram>, unrel: bool)
    ensures Of(a + b, unrel) == Of(a, unrel) + Of(b, unrel)
    decreases |a|
  {
    if a == [] {
      assert a + b == b;
    } else {
      var d, rest := a[0], a[1..];
      OfAppend(rest, b, unrel);
      Front(a, b);
      OfFirst(d, rest + b, unrel);
      OfFirst(d, rest, unrel);
      Assoc(if d.unrel == unrel then [d] else [], Of(rest, unrel), Of(b, unrel));
    }
  }

  lemma {:induction false} UnrelFirst(e: U.Entry, rest: seq<U.Entry>, from: nat)
    ensures UnrelDatagrams([e] + rest, from) == [AsDatagram(e.fragment, from, true)] + UnrelDatagrams(rest, from + 1)
  {
    assert ([e] + rest)[1..] == rest;
  }

  lemma {:induction false} UnrelAppend(a: seq<U.Entry>, b: seq<U.Entry>, from: nat)
    ensures UnrelDatagrams(a + b, from) == UnrelDatagrams(a, from) + UnrelDatagrams(b, from + |a|)
    decreases |a|
  {
    if a == [] {
      assert a + b == b;
    } else {
      var e, rest := a[0], a[1..];
      UnrelAppend(rest, b, from + 1);
      Front(a, b);
      UnrelFirst(e, rest + b, from);
      UnrelFirst(e, rest, from);
      Assoc([AsDatagram(e.fragment, from, true)], UnrelDatagrams(rest, from + 1), UnrelDatagrams(b, from + |a|));
    }
  }

  lemma {:induction false} RelFirst(f: Fragment, rest: seq<Fragment>, from: nat)
    ensures RelDatagrams([f] + rest, from) == [AsDatagram(f, from, false)] + RelDatagrams(rest, from + 1)
  {
    assert ([f] + rest)[1..] == rest;
  }

  lemma {:induction false} RelAppend(a: seq<Fragment>, b: seq<Fragment>, from: nat)
    ensures RelDatagrams(a + b, from) == RelDatagrams(a, from) + RelDatagrams(b, from + |a|)
    decreases |a|
  {
    if a == [] {
      assert a + b == b;
    } else {
      var f, rest := a[0], a[1..];
      RelAppend(rest, b, from + 1);
      Front(a, b);
      RelFirst(f, rest + b, from);
      RelFirst(f, rest, from);
      Assoc([AsDatagram(f, from, false)], RelDatagrams(rest, from + 1), RelDatagrams(b, from + |a|));
    }
  }

  lemma {:induction false} UnrelRecordAppend(before: seq<U.Entry>, from: nat, middle: seq<U.Entry>, mid: nat,
                                             ds: seq<Datagram>, after: seq<U.Entry>, to: nat, more: seq<Datagram>)
    requires UnrelRecord(before, from, middle, mid, ds) && UnrelRecord(middle, mid, after, to, more)
    ensures UnrelRecord(before, from, after, to, ds + more)
  {
    OfAppend(ds, more, true);
    var a, b := before[..mid - from], middle[..to - mid];
    UnrelAppend(a, b, from);
    assert before[..to - from] == a + b;
  }

  lemma {:induction false} RelRecordAppend(pending: seq<Fragment>, from: nat, mid: nat, ds: seq<Datagram>, to: nat,
                                           more: seq<Datagram>)
    requires RelRecord(pending, from, mid, ds) && RelRecord(pending[mid - from..], mid, to, more)
    ensures RelRecord(pending, from, to, ds + more)
  {
    OfAppend(ds, more, false);
    var a, b := pending[..mid - from], pending[mid - from..][..to - mid];
    RelAppend(a, b, from);
    assert pending[..to - from] == a + b;
  }

  /** Records of successive frames make up one record. */
  lemma {:induction false} RecordsAppend(q: Queues, now: u64, q': Queues, ds: seq<Datagram>, q'': Queues,
                                         more: seq<Datagram>)
    requires q.Valid() && q'.Valid() && q''.Valid()
    requires Records(q, now, q', ds) && Records(q', now, q'', more)
    ensures Records(q, now, q'', ds + more)
  {
    hide Fresh, Of, UnrelDatagrams, RelDatagrams;
    UnrelRecordAppend(Fresh(q.unrel.queue, now), q.unrel.next, Fresh(q'.unrel.queue, now), q'.unrel.next, ds,
                      Fresh(q''.unrel.queue, now), q''.unrel.next, more);
    assert Pending(q'.rel) == Pending(q.rel)[q'.rel.next - q.rel.next..];
    RelRecordAppend(Pending(q.rel), q.rel.next, q'.rel.next, ds, q''.rel.next, more);
  }

  lemma {:induction false} RecordsSame(q: Queues, now: u64)
    requires q.Valid()
    ensures Records(q, now, q, [])
  {
    assert Fresh(q.unrel.queue, now)[..0] == [] && Fresh(q.unrel.queue, now)[0..] == Fresh(q.unrel.queue, now);
    assert Pending(q.rel)[..0] == [];
  }

  lemma {:induction false} DataSizeFits(ds: seq<Datagram>)
    ensures DataSize(ds) <= |EncodeAll(ds)|
    decreases |ds|
  {
    if ds != [] {
      DataSizeFits(ds[1..]);
    }
  }

  // ---- frames of empty packets ----

  /** What a channel has ready, in order. */
  function Ready(q: Queues, channel: nat, now: u64): seq<Fragment>
    requires q.Valid()
  {
    if channel == UNREL then FragmentsOf(Fresh(q.unrel.queue, now))
    else if q.rel.CanSend() then q.rel.queue[q.rel.next - q.rel.base..MinNat(q.rel.window, |q.rel.queue|)]
    else []
  }

  function FragmentsOf(entries: seq<U.Entry>): (fs: seq<Fragment>)
    ensures |fs| == |entries|
    decreases |entries|
  {
    if entries == [] then [] else [entries[0].fragment] + FragmentsOf(entries[1..])
  }

  function MinNat(a: nat, b: nat): nat {
    if a <= b then a else b
  }

  /** What is ready, the channel whose turn it is first. */
  function Line(q: Queues, now: u64): seq<Fragment>
    requires q.Valid()
  {
    LineOf(q.counters, Ready(q, UNREL, now), Ready(q, REL, now))
  }

  function LineOf(counters: seq<u32>, unrel: seq<Fragment>, rel: seq<Fragment>): seq<Fragment>
    requires |counters| == P.CHANNELS
  {
    match P.Choice(counters, [unrel != [], rel != [], false, false])
    case None => []
    case Some(channel) => if channel == UNREL then unrel + rel else rel + unrel
  }

  /** The room runs out among the empty fragments at the front. */
  predicate OnlyEmptiesFit(line: seq<Fragment>, space: int)
    decreases |line|
  {
    || line == []
    || DATAGRAM_HEADER_SIZE + |line[0].data| > space
    || (line[0].data == [] && OnlyEmptiesFit(line[1..], space - DATAGRAM_HEADER_SIZE))
  }

  lemma {:induction false} FragmentsOfFirst(entries: seq<U.Entry>)
    requires entries != []
    ensures FragmentsOf(entries)[0] == entries[0].fragment && FragmentsOf(entries)[1..] == FragmentsOf(entries[1..])
  {
  }

  lemma {:induction false} ReadyTells(q: Queues, now: u64)
    requires q.Valid()
    ensures q.Expire(now).Valid()
    ensures q.Expire(now).unrel.queue != [] <==> Ready(q, UNREL, now) != []
    ensures q.rel.CanSend() <==> Ready(q, REL, now) != []
  {
    ExpireKeepsValid(q, now);
    FreshHead(q.unrel.queue, now);
  }

  /** Popping takes the first of what the channel has ready, and nothing of the other's. */
  lemma {:induction false} ReadyAfterPop(q: Queues, channel: nat, config: P.Config, now: u64)
    requires q.Valid() && q.Expire(now).Valid() && q.Expire(now).Next() == Some(channel)
    requires |config.weights| == P.CHANNELS
    ensures var due, ready := q.Expire(now), Ready(q, channel, now);
      && due.Pop(channel, config).Valid()
      && ready != [] && ready[0].data == due.Head(channel).data
      && Ready(due.Pop(channel, config), channel, now) == ready[1..]
      && Ready(due.Pop(channel, config), 1 - channel, now) == Ready(q, 1 - channel, now)
  {
    var due := q.Expire(now);
    PopKeepsValid(due, channel, config);
    FreshHead(q.unrel.queue, now);
    FreshAfterExpiry(q.unrel.queue, now);
    if channel == UNREL {
      FragmentsOfFirst(Fresh(q.unrel.queue, now));
    }
  }

  lemma {:induction false} LineFirst(q: Queues, config: P.Config, now: u64)
    requires q.Valid() && q.Expire(now).Valid() && |config.weights| == P.CHANNELS
    ensures match q.Expire(now).Next()
      case None => Line(q, now) == []
      case Some(channel) => Line(q, now) != [] && Line(q, now)[0].data == q.Expire(now).Head(channel).data
  {
    hide Ready;
    ReadyTells(q, now);
    if q.Expire(now).Next().Some? {
      ReadyAfterPop(q, q.Expire(now).Next().value, config, now);
    }
  }

  /** The turn stays where it is as long as there is more. */
  lemma {:induction false} LineShifts(counters: seq<u32>, unrel: seq<Fragment>, rel: seq<Fragment>)
    requires |counters| == P.CHANNELS
    ensures var turn := P.Choice(counters, [unrel != [], rel != [], false, false]);
      && (turn == Some(UNREL) ==> unrel != [] && LineOf(counters, unrel[1..], rel) == LineOf(counters, unrel, rel)[1..])
      && (turn == Some(REL) ==> rel != [] && LineOf(counters, unrel, rel[1..]) == LineOf(counters, unrel, rel)[1..])
  {
    if unrel != [] {
      P.ChoiceIsUnique(counters, [false, rel != [], false, false], if rel != [] then Some(REL) else None);
      assert (unrel + rel)[1..] == unrel[1..] + rel;
    }
    if rel != [] {
      P.ChoiceIsUnique(counters, [unrel != [], false, false, false], if unrel != [] then Some(UNREL) else None);
      assert (rel + unrel)[1..] == rel[1..] + unrel;
    }
  }

  /** An empty fragment costs nothing, so nothing else changes. */
  lemma {:induction false} LineAfterEmpty(q: Queues, channel: nat, config: P.Config, now: u64)
    requires q.Valid() && q.Expire(now).Valid() && q.Expire(now).Next() == Some(channel)
    requires |config.weights| == P.CHANNELS && P.Bounded(q.counters, config.counterMax)
    requires q.Expire(now).Head(channel).data == []
    ensures var p := q.Expire(now).Pop(channel, config);
      p.Valid() && p.counters == q.counters && Line(q, now) != [] && Line(p, now) == Line(q, now)[1..]
  {
    hide Ready, LineOf;
    ReadyAfterPop(q, channel, config, now);
    ReadyTells(q, now);
    LineShifts(q.counters, Ready(q, UNREL, now), Ready(q, REL, now));
    LineFirst(q, config, now);
  }

  /** A data frame's size comes out as zero exactly when what is ready, the channel whose turn it is first,
      starts with empty fragments up to where the room runs out. */
  lemma {:induction false} NoDataExactly(q: Queues, config: P.Config, now: u64, space: int)
    requires q.Valid() && |config.weights| == P.CHANNELS && P.Bounded(q.counters, config.counterMax)
    ensures DataSize(Filled(q, config, now, space).1) == 0 <==> OnlyEmptiesFit(Line(q, now), space)
    decreases q.Size()
  {
    hide Filled, Line;
    ExpireKeepsValid(q, now);
    FilledStep(q, config, now, space);
    LineFirst(q, config, now);
    var due := q.Expire(now);
    if due.Next().Some? {
      var channel := due.Next().value;
      PopKeepsValid(due, channel, config);
      var d := due.Head(channel);
      if DatagramSize(d) <= space && d.data == [] {
        LineAfterEmpty(q, channel, config, now);
        NoDataExactly(due.Pop(channel, config), config, now, space - DatagramSize(d));
      }
    }
  }

  /** So queues without empty fragments never make such a frame: with data ready and room for it, data is
      sent. */
  lemma {:induction false} DataSentUnlessEmpty(q: Queues, config: P.Config, now: u64, space: int)
    requires q.Valid() && |config.weights| == P.CHANNELS && P.Bounded(q.counters, config.counterMax)
    requires q.DataReady(now) && space >= DATAGRAM_HEADER_SIZE + FRAGMENT_SIZE
    requires forall e :: e in q.unrel.queue ==> e.fragment.data != []
    requires forall f :: f in q.rel.queue ==> f.data != []
    ensures DataSize(Filled(q, config, now, space).1) > 0
  {
    ExpireKeepsValid(q, now);
    U.UnexpiredIsSuffix(q.unrel.queue, now);
    var due := q.Expire(now);
    var channel := due.Next().value;
    PopKeepsValid(due, channel, config);
    LineFirst(q, config, now);
    NoDataExactly(q, config, now, space);
  }

  /** Only empty packets make empty fragments. */
  lemma {:induction false} FragmentsNotEmpty(packet: Packet, i: nat)
    requires i < |Fragmentize(packet, FRAGMENT_SIZE)|
    ensures Fragmentize(packet, FRAGMENT_SIZE)[i].data == [] <==> packet == []
  {
    SplitShape(packet, true, FRAGMENT_SIZE, i);
    if i > 0 {
      SplitShape(packet, true, FRAGMENT_SIZE, i - 1);
    }
  }

  /** One empty packet in otherwise empty queues does: a datagram is written, of no data. */
  lemma {:induction false} EmptyPacketFrame(config: P.Config, now: u64, space: int, next: nat, window: u32)
    requires |config.weights| == P.CHANNELS && space >= DATAGRAM_HEADER_SIZE && window > 0
    ensures var q := Queues(U.Tx([], next), R.Tx(next, next, next, [], window, 0), [0, 0, 0, 0]);
      var after := q.Enqueue([], Reliable, now);
      after.Valid() && after.DataReady(now) &&
      Filled(after, config, now, space).1 == [Datagram(Wire(next), false, true, true, [])]
  {
    var q := Queues(U.Tx([], next), R.Tx(next, next, next, [], window, 0), [0, 0, 0, 0]);
    EnqueueKeepsValid(q, [], Reliable, now);
    var after := q.Enqueue([], Reliable, now);
    assert after.rel.queue == [Fragment(true, true, [])];
    FilledStep(after, config, now, space);
    var (left, written) := FillOne(after, config, now, space);
    FilledStep(left, config, now, space - DatagramSize(written.value));
  }
}
