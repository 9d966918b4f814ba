/** Frames: a type byte, what the frame carries, and a checksum over all of it. */
module Frame {
  import opened Words
  import opened Fragments
  import opened Codec
  import opened Crc

  const FRAME_SIZE_MAX: nat := 1472
  const FRAME_HEADER_SIZE: nat := 1
  const FRAME_CRC_SIZE: nat := 4
  const FRAME_OVERHEAD_SIZE: nat := FRAME_HEADER_SIZE + FRAME_CRC_SIZE

  datatype FrameType =
    | HandshakeAlpha | HandshakeAlphaAck | HandshakeBeta | HandshakeBetaAck
    | Close | CloseAck
    | StreamSegment | StreamAckOnly | StreamSegmentAck | StreamSync

  function TypeBits(kind: FrameType): byte {
    match kind
    case HandshakeAlpha => 0x00
    case HandshakeAlphaAck => 0x01
    case HandshakeBeta => 0x02
    case HandshakeBetaAck => 0x03
    case Close => 0x04
    case CloseAck => 0x05
    case StreamSegment => 0x06
    case StreamAckOnly => 0x07
    case StreamSegmentAck => 0x08
    case StreamSync => 0x09
  }

  /** The type is in the low four bits. */
  function ReadType(frame: seq<byte>): (kind: Option<FrameType>)
    requires |frame| >= FRAME_OVERHEAD_SIZE
    ensures kind.Some? ==> TypeBits(kind.value) == frame[0] & 0x0F
    ensures kind.None? ==> frame[0] & 0x0F > 0x09
  {
    match frame[0] & 0x0F
    case 0x00 => Some(HandshakeAlpha)
    case 0x01 => Some(HandshakeAlphaAck)
    case 0x02 => Some(HandshakeBeta)
    case 0x03 => Some(HandshakeBetaAck)
    case 0x04 => Some(Close)
    case 0x05 => Some(CloseAck)
    case 0x06 => Some(StreamSegment)
    case 0x07 => Some(StreamAckOnly)
    case 0x08 => Some(StreamSegmentAck)
    case 0x09 => Some(FrameType.StreamSync)
    case _ => None
  }

  function Payload(frame: seq<byte>): seq<byte>
    requires |frame| >= FRAME_OVERHEAD_SIZE
  {
    frame[FRAME_HEADER_SIZE..|frame| - FRAME_CRC_SIZE]
  }

  /** A message with its checksum appended. */
  function Sealed(data: seq<byte>): (frame: seq<byte>)
    ensures |frame| == |data| + FRAME_CRC_SIZE
  {
    data + LittleEndian(Checksum(INITIAL_CRC, data))
  }

  // ---- writing and reading in place ----

  class FrameWriter {
    const buffer: array<byte>
    var writeIdx: nat

    ghost predicate Valid()
      reads this
    {
      FRAME_HEADER_SIZE <= writeIdx <= buffer.Length - FRAME_CRC_SIZE
    }

    ghost function Written(): seq<byte>
      requires Valid()
      reads this, buffer
    {
      buffer[..writeIdx]
    }

    constructor (buffer: array<byte>, kind: FrameType)
      requires buffer.Length >= FRAME_OVERHEAD_SIZE
      modifies buffer
      ensures Valid() && this.buffer == buffer && Written() == [TypeBits(kind)]
    {
      this.buffer := buffer;
      writeIdx := FRAME_HEADER_SIZE;
      new;
      buffer[0] := TypeBits(kind);
    }

    /** Writes a serial form if it leaves room for the checksum. */
    method Write(serial: seq<byte>) returns (fits: bool)
      requires Valid()
      modifies `writeIdx, buffer
      ensures Valid()
      ensures fits <==> old(writeIdx) + |serial| + FRAME_CRC_SIZE <= buffer.Length
      ensures Written() == old(Written()) + if fits then serial else []
    {
      var endIdx := buffer.Length - FRAME_CRC_SIZE;
      if endIdx - writeIdx < |serial| {
        return false;
      }
      Copy(serial);
      writeIdx := writeIdx + |serial|;
      return true;
    }

    method Copy(bytes: seq<byte>)
      requires writeIdx + |bytes| <= buffer.Length
      modifies buffer
      ensures buffer[..writeIdx + |bytes|] == old(buffer[..writeIdx]) + bytes
    {
      var i := 0;
      while i < |bytes|
        invariant i <= |bytes| && buffer[..writeIdx + i] == old(buffer[..writeIdx]) + bytes[..i]
      {
        buffer[writeIdx + i] := bytes[i];
        i := i + 1;
      }
      assert bytes[..|bytes|] == bytes;
    }

    method Finalize() returns (frame: seq<byte>)
      requires Valid()
      modifies buffer
      ensures frame == Sealed(old(Written()))
    {
      var frameCrc := Compute(buffer[..writeIdx]);
      Copy(LittleEndian(frameCrc));
      frame := buffer[..writeIdx + FRAME_CRC_SIZE];
    }
  }

  class PayloadReader {
    const buffer: seq<byte>
    var readIdx: nat

    ghost predicate Valid()
      reads this
    {
      readIdx <= |buffer|
    }

    ghost function Remaining(): seq<byte>
      requires Valid()
      reads this
    {
      buffer[readIdx..]
    }

    constructor (buffer: seq<byte>)
      ensures Valid() && Remaining() == buffer
    {
      this.buffer := buffer;
      readIdx := 0;
    }

    method ReadDatagram() returns (r: Option<Datagram>)
      requires Valid()
      modifies `readIdx
      ensures Valid()
      ensures var d := DecodeDatagram(old(Remaining()));
        if d.Some? then r == Some(d.value.0) && Remaining() == old(Remaining())[d.value.1..]
        else r == None && Remaining() == old(Remaining())
      ensures r.Some? ==> readIdx > old(readIdx)
    {
      match DecodeDatagram(buffer[readIdx..])
      case None => r := None;
      case Some((d, size)) =>
        readIdx := readIdx + size;
        r := Some(d);
    }

    /** Reads datagrams until no more can be read. */
    method ReadDatagrams() returns (ds: seq<Datagram>)
      requires Valid()
      modifies `readIdx
      ensures Valid() && ds == DecodeAll(old(Remaining())) && DecodeDatagram(Remaining()) == None
    {
      hide DecodeDatagram, DecodeAll;
      ds := [];
      assert ds + DecodeAll(Remaining()) == DecodeAll(Remaining());
      while true
        invariant Valid() && ds + DecodeAll(Remaining()) == DecodeAll(old(Remaining()))
        decreases |buffer| - readIdx
      {
        DecodeAllNext(Remaining());
        var next := ReadDatagram();
        if next.None? {
          return;
        }
        ds := ds + [next.value];
      }
    }
  }

  // ---- whole stream frames ----

  /** What a stream frame carries: an acknowledgement, a segment of datagrams, or both. */
  datatype Content = Content(ack: Option<StreamAck>, segment: Option<(SegmentHeader, seq<Datagram>)>)

  function KindOf(c: Content): FrameType
    requires c.ack.Some? || c.segment.Some?
  {
    if c.segment.None? then StreamAckOnly else if c.ack.None? then StreamSegment else StreamSegmentAck
  }

  function SegmentBytes(c: Content): seq<byte> {
    if c.segment.Some? then EncodeHeader(c.segment.value.0) + EncodeAll(c.segment.value.1) else []
  }

  function AckBytes(ack: Option<StreamAck>): seq<byte> {
    if ack.Some? then EncodeAck(ack.value) else []
  }

  function ContentBytes(c: Content): seq<byte> {
    AckBytes(c.ack) + SegmentBytes(c)
  }

  function FrameOf(c: Content): seq<byte>
    requires c.ack.Some? || c.segment.Some?
  {
    Sealed([TypeBits(KindOf(c))] + ContentBytes(c))
  }

  /** What the receiving end makes of a payload; None if it is cut short. */
  function Parse(kind: FrameType, payload: seq<byte>): Option<Content>
    requires kind in {StreamSegment, StreamAckOnly, StreamSegmentAck}
  {
    if kind == StreamSegment then Some(Content(None, ParseSegment(payload)))
    else
      match DecodeAck(payload)
      case None => None
      case Some((ack, size)) =>
        Some(Content(Some(ack), if kind == StreamSegmentAck then ParseSegment(payload[size..]) else None))
  }

  function ParseSegment(src: seq<byte>): Option<(SegmentHeader, seq<Datagram>)> {
    match DecodeHeader(src)
    case None => None
    case Some((header, size)) => Some((header, DecodeAll(src[size..])))
  }

  /** A frame as it arrives: its history cut to five bits. */
  function Arriving(c: Content): Content {
    if c.ack.Some? then c.(ack := Some(AsSent(c.ack.value))) else c
  }

  lemma {:induction false} SealedReadsBack(kind: FrameType, body: seq<byte>)
    ensures var frame := Sealed([TypeBits(kind)] + body);
      && |frame| == |body| + FRAME_OVERHEAD_SIZE
      && Verifies(frame) && ReadType(frame) == Some(kind) && Payload(frame) == body
  {
    SealedFrameVerifies([TypeBits(kind)] + body);
    TypeBack(Sealed([TypeBits(kind)] + body), kind);
  }

  lemma {:induction false} TypeBack(frame: seq<byte>, kind: FrameType)
    requires |frame| >= FRAME_OVERHEAD_SIZE && frame[0] == TypeBits(kind)
    ensures ReadType(frame) == Some(kind)
  {
  }

  lemma {:induction false} SegmentRoundTrip(header: SegmentHeader, ds: seq<Datagram>)
    requires forall d :: d in ds ==> Sendable(d)
    ensures ParseSegment(EncodeHeader(header) + EncodeAll(ds)) == Some((header, ds))
  {
    var src := EncodeHeader(header) + EncodeAll(ds);
    HeaderRoundTrip(header, EncodeAll(ds));
    assert src[SEGMENT_HEADER_SIZE..] == EncodeAll(ds);
    AllRoundTrip(ds);
  }

  /** Reading a frame back yields its type, its acknowledgement, its segment header and its list of
      datagrams, and its checksum is right. */
  lemma {:induction false} FrameRoundTrip(c: Content)
    requires c.ack.Some? || c.segment.Some?
    requires c.segment.Some? ==> forall d :: d in c.segment.value.1 ==> Sendable(d)
    ensures var frame := FrameOf(c);
      && |frame| >= FRAME_OVERHEAD_SIZE && Verifies(frame)
      && ReadType(frame) == Some(KindOf(c)) && Parse(KindOf(c), Payload(frame)) == Some(Arriving(c))
  {
    SealedReadsBack(KindOf(c), ContentBytes(c));
    var body := ContentBytes(c);
    if c.segment.Some? {
      SegmentRoundTrip(c.segment.value.0, c.segment.value.1);
    }
    if c.ack.Some? {
      AckRoundTrip(c.ack.value, SegmentBytes(c));
      assert body[STREAM_ACK_SIZE..] == SegmentBytes(c);
    } else {
      assert body == SegmentBytes(c);
    }
  }

  /** Likewise for a sync. */
  lemma {:induction false} SyncFrameRoundTrip(sync: Codec.StreamSync)
    ensures var frame := Sealed([TypeBits(FrameType.StreamSync)] + EncodeSync(sync));
      && |frame| == STREAM_SYNC_SIZE + FRAME_OVERHEAD_SIZE && Verifies(frame)
      && ReadType(frame) == Some(FrameType.StreamSync) && DecodeSync(Payload(frame)) == Some((sync, STREAM_SYNC_SIZE))
  {
    SealedReadsBack(FrameType.StreamSync, EncodeSync(sync));
    SyncRoundTrip(sync, []);
    assert EncodeSync(sync) + [] == EncodeSync(sync);
  }
}
