/** The serial forms of what stream frames carry. */
module Codec {
  import opened Words
  import opened Fragments

  const DATAGRAM_HEADER_SIZE: nat := 7
  const DATAGRAM_DATA_SIZE_MAX: nat := 65535
  const STREAM_ACK_SIZE: nat := 9
  const SEGMENT_HEADER_SIZE: nat := 5
  const STREAM_SYNC_SIZE: nat := 4

  /** Only the five lowest bits of the history are sent. */
  datatype StreamAck = StreamAck(segmentId: u32, history: byte, checksum: bool, relFragmentId: Option<u32>)
  datatype SegmentHeader = SegmentHeader(id: u32, nonce: bool)
  datatype StreamSync = StreamSync(nextSegmentId: u32)
  datatype Datagram = Datagram(id: u32, unrel: bool, first: bool, last: bool, data: seq<byte>)

  // ---- flags ----

  function Flag(on: bool, bit: byte): byte {
    if on then bit else 0
  }

  function AckInfo(rel: bool, checksum: bool, history: byte): byte {
    Flag(rel, 0x80) | Flag(checksum, 0x20) | (history & 0x1F)
  }

  lemma {:induction false} AckInfoBack(rel: bool, checksum: bool, history: byte)
    ensures AckInfo(rel, checksum, history) & 0x1F == history & 0x1F
    ensures AckInfo(rel, checksum, history) & 0x20 != 0 <==> checksum
    ensures AckInfo(rel, checksum, history) & 0x80 != 0 <==> rel
  {
  }

  function DatagramInfo(unrel: bool, first: bool, last: bool): byte {
    Flag(unrel, 0x01) | Flag(first, 0x02) | Flag(last, 0x04)
  }

  lemma {:induction false} DatagramInfoBack(unrel: bool, first: bool, last: bool)
    ensures DatagramInfo(unrel, first, last) & 0x01 != 0 <==> unrel
    ensures DatagramInfo(unrel, first, last) & 0x02 != 0 <==> first
    ensures DatagramInfo(unrel, first, last) & 0x04 != 0 <==> last
  {
  }

  // ---- integers, highest byte first ----

  function FromByte(b: byte): nat {
    b as int
  }

  lemma {:induction false} FromByteInjective(a: byte, b: byte)
    requires FromByte(a) == FromByte(b)
    ensures a == b
  {
  }

  lemma {:induction false} ByteExists(v: nat)
    requires v < 0x100
    ensures exists b: byte :: FromByte(b) == v
    decreases v
  {
    if v == 0 {
      assert FromByte(0) == v;
    } else {
      ByteExists(v - 1);
      var b: byte :| FromByte(b) == v - 1;
      assert FromByte(b + 1) == v;
    }
  }

  lemma {:induction false} ByteUnique(v: nat)
    ensures forall a: byte, b: byte :: FromByte(a) == v && FromByte(b) == v ==> a == b
  {
    forall a: byte, b: byte | FromByte(a) == v && FromByte(b) == v
      ensures a == b
    {
      FromByteInjective(a, b);
    }
  }

  /** `v as u8`: the byte worth the low eight bits. */
  function ToByte(v: nat): byte {
    ByteExists(v % 0x100);
    ByteUnique(v % 0x100);
    var b: byte :| FromByte(b) == v % 0x100;
    b
  }

  function U16Bytes(v: nat): (r: seq<byte>)
    ensures |r| == 2
  {
    [ToByte(v / 0x100), ToByte(v)]
  }

  function U32Bytes(v: u32): (r: seq<byte>)
    ensures |r| == 4
  {
    [ToByte(v / 0x100_0000), ToByte(v / 0x1_0000), ToByte(v / 0x100), ToByte(v)]
  }

  function U16Of(b0: byte, b1: byte): nat {
    FromByte(b0) * 0x100 + FromByte(b1)
  }

  function U32Of(b0: byte, b1: byte, b2: byte, b3: byte): u32 {
    FromByte(b0) * 0x100_0000 + FromByte(b1) * 0x1_0000 + FromByte(b2) * 0x100 + FromByte(b3)
  }

  function ReadU16(src: seq<byte>, at: nat): nat
    requires at + 2 <= |src|
  {
    U16Of(src[at], src[at + 1])
  }

  function ReadU32(src: seq<byte>, at: nat): u32
    requires at + 4 <= |src|
  {
    U32Of(src[at], src[at + 1], src[at + 2], src[at + 3])
  }

  lemma {:induction false} Bytes(v: nat, d0: nat, d1: nat, d2: nat, d3: nat)
    requires d0 < 0x100 && d1 < 0x100 && d2 < 0x100 && d3 < 0x100
    requires v == d0 * 0x100_0000 + d1 * 0x1_0000 + d2 * 0x100 + d3
    ensures v / 0x100_0000 % 0x100 == d0 && v / 0x1_0000 % 0x100 == d1 && v / 0x100 % 0x100 == d2 && v % 0x100 == d3
  {
    ModUnique(v, 0x100_0000, d0, d1 * 0x1_0000 + d2 * 0x100 + d3);
    ModUnique(v, 0x1_0000, d0 * 0x100 + d1, d2 * 0x100 + d3);
    ModUnique(v, 0x100, d0 * 0x1_0000 + d1 * 0x100 + d2, d3);
    ModUnique(d0 * 0x100 + d1, 0x100, d0, d1);
    ModUnique(d0 * 0x1_0000 + d1 * 0x100 + d2, 0x100, d0 * 0x100 + d1, d2);
  }

  lemma {:induction false} SplitsInBytes(v: u32)
    ensures v == v / 0x100_0000 % 0x100 * 0x100_0000 + v / 0x1_0000 % 0x100 * 0x1_0000
                 + v / 0x100 % 0x100 * 0x100 + v % 0x100
  {
    var d0, r0 := v / 0x100_0000, v % 0x100_0000;
    var d1, r1 := r0 / 0x1_0000, r0 % 0x1_0000;
    Bytes(v, d0, d1, r1 / 0x100, r1 % 0x100);
  }

  lemma {:induction false} U16Back(src: seq<byte>, at: nat, v: nat)
    requires v <= 0xffff && at + 2 <= |src| && src[at..at + 2] == U16Bytes(v)
    ensures ReadU16(src, at) == v
  {
    var w := src[at..at + 2];
    assert w[0] == src[at] && w[1] == src[at + 1];
    SplitsInTwo(v);
  }

  lemma {:induction false} SplitsInTwo(v: nat)
    requires v <= 0xffff
    ensures v == v / 0x100 % 0x100 * 0x100 + v % 0x100
  {
  }

  lemma {:induction false} U32Back(src: seq<byte>, at: nat, v: u32)
    requires at + 4 <= |src| && src[at..at + 4] == U32Bytes(v)
    ensures ReadU32(src, at) == v
  {
    var w := src[at..at + 4];
    assert w[0] == src[at] && w[1] == src[at + 1] && w[2] == src[at + 2] && w[3] == src[at + 3];
    SplitsInBytes(v);
  }

  lemma {:induction false} ByteForth(v: nat, b: byte)
    requires v % 0x100 == FromByte(b)
    ensures ToByte(v) == b
  {
    FromByteInjective(ToByte(v), b);
  }

  lemma {:induction false} Small(b: byte)
    ensures FromByte(b) < 0x100
  {
  }

  lemma {:induction false} U16Forth(src: seq<byte>, at: nat)
    requires at + 2 <= |src|
    ensures U16Bytes(ReadU16(src, at)) == src[at..at + 2]
  {
    var v, b0, b1 := ReadU16(src, at), src[at], src[at + 1];
    Small(b0); Small(b1);
    ByteForth(v, b1);
    ByteForth(v / 0x100, b0);
  }

  lemma {:induction false} U32Forth(src: seq<byte>, at: nat)
    requires at + 4 <= |src|
    ensures U32Bytes(ReadU32(src, at)) == src[at..at + 4]
  {
    var v, b0, b1, b2, b3 := ReadU32(src, at), src[at], src[at + 1], src[at + 2], src[at + 3];
    Small(b0); Small(b1); Small(b2); Small(b3);
    Bytes(v, FromByte(b0), FromByte(b1), FromByte(b2), FromByte(b3));
    ByteForth(v, b3);
    ByteForth(v / 0x100, b2);
    ByteForth(v / 0x1_0000, b1);
    ByteForth(v / 0x100_0000, b0);
  }

  // ---- fixed-size blocks ----

  function EncodeAck(ack: StreamAck): (r: seq<byte>)
    ensures |r| == STREAM_ACK_SIZE
  {
    [AckInfo(ack.relFragmentId.Some?, ack.checksum, ack.history)] + U32Bytes(ack.segmentId)
    + U32Bytes(if ack.relFragmentId.Some? then ack.relFragmentId.value else 0)
  }

  function DecodeAck(src: seq<byte>): Option<(StreamAck, nat)> {
    if |src| < STREAM_ACK_SIZE then None
    else
      var info := src[0];
      var rel := ReadU32(src, 5);
      Some((StreamAck(ReadU32(src, 1), info & 0x1F, info & 0x20 != 0, if info & 0x80 != 0 then Some(rel) else None),
            STREAM_ACK_SIZE))
  }

  /** What arrives of an acknowledgement: its history cut to five bits. */
  function AsSent(ack: StreamAck): StreamAck {
    ack.(history := ack.history & 0x1F)
  }

  lemma {:induction false} AckRoundTrip(ack: StreamAck, rest: seq<byte>)
    ensures DecodeAck(EncodeAck(ack) + rest) == Some((AsSent(ack), STREAM_ACK_SIZE))
  {
    var rel := if ack.relFragmentId.Some? then ack.relFragmentId.value else 0;
    var src := EncodeAck(ack) + rest;
    assert src[1..5] == U32Bytes(ack.segmentId);
    assert src[5..9] == U32Bytes(rel);
    U32Back(src, 1, ack.segmentId);
    U32Back(src, 5, rel);
    AckInfoBack(ack.relFragmentId.Some?, ack.checksum, ack.history);
  }

  function EncodeHeader(header: SegmentHeader): (r: seq<byte>)
    ensures |r| == SEGMENT_HEADER_SIZE
  {
    [Flag(header.nonce, 0x01)] + U32Bytes(header.id)
  }

  function DecodeHeader(src: seq<byte>): Option<(SegmentHeader, nat)> {
    if |src| < SEGMENT_HEADER_SIZE then None
    else Some((SegmentHeader(ReadU32(src, 1), src[0] & 0x01 != 0), SEGMENT_HEADER_SIZE))
  }

  lemma {:induction false} HeaderRoundTrip(header: SegmentHeader, rest: seq<byte>)
    ensures DecodeHeader(EncodeHeader(header) + rest) == Some((header, SEGMENT_HEADER_SIZE))
  {
    var src := EncodeHeader(header) + rest;
    assert src[1..5] == U32Bytes(header.id);
    U32Back(src, 1, header.id);
    DatagramInfoBack(header.nonce, false, false);
  }

  function EncodeSync(sync: StreamSync): (r: seq<byte>)
    ensures |r| == STREAM_SYNC_SIZE
  {
    U32Bytes(sync.nextSegmentId)
  }

  function DecodeSync(src: seq<byte>): Option<(StreamSync, nat)> {
    if |src| < STREAM_SYNC_SIZE then None else Some((StreamSync(ReadU32(src, 0)), STREAM_SYNC_SIZE))
  }

  lemma {:induction false} SyncRoundTrip(sync: StreamSync, rest: seq<byte>)
    ensures DecodeSync(EncodeSync(sync) + rest) == Some((sync, STREAM_SYNC_SIZE))
  {
    var src := EncodeSync(sync) + rest;
    assert src[0..4] == U32Bytes(sync.nextSegmentId);
    U32Back(src, 0, sync.nextSegmentId);
  }

  // ---- datagrams ----

  predicate Sendable(d: Datagram) {
    |d.data| <= DATAGRAM_DATA_SIZE_MAX
  }

  function DatagramSize(d: Datagram): nat {
    DATAGRAM_HEADER_SIZE + |d.data|
  }

  function EncodeDatagram(d: Datagram): (r: seq<byte>)
    ensures |r| == DatagramSize(d)
  {
    [DatagramInfo(d.unrel, d.first, d.last)] + U32Bytes(d.id) + U16Bytes(|d.data|) + d.data
  }

  function DecodeDatagram(src: seq<byte>): Option<(Datagram, nat)> {
    if |src| < DATAGRAM_HEADER_SIZE || |src| < DATAGRAM_HEADER_SIZE + ReadU16(src, 5) then None
    else
      var info, size := src[0], ReadU16(src, 5);
      Some((Datagram(ReadU32(src, 1), info & 0x01 != 0, info & 0x02 != 0, info & 0x04 != 0, src[7..7 + size]),
            DATAGRAM_HEADER_SIZE + size))
  }

  lemma {:induction false} DatagramParts(d: Datagram, rest: seq<byte>)
    ensures var src := EncodeDatagram(d) + rest;
      && src[0] == DatagramInfo(d.unrel, d.first, d.last) && src[1..5] == U32Bytes(d.id)
      && src[5..7] == U16Bytes(|d.data|) && src[7..7 + |d.data|] == d.data
  {
  }

  lemma {:induction false} DatagramRoundTrip(d: Datagram, rest: seq<byte>)
    requires Sendable(d)
    ensures DecodeDatagram(EncodeDatagram(d) + rest) == Some((d, |EncodeDatagram(d)|))
  {
    var src := EncodeDatagram(d) + rest;
    DatagramParts(d, rest);
    assert ReadU32(src, 1) == d.id by { U32Back(src, 1, d.id); }
    assert ReadU16(src, 5) == |d.data| by { U16Back(src, 5, |d.data|); }
    DatagramInfoBack(d.unrel, d.first, d.last);
  }

  /** Nothing else reads as a datagram: but for the five unused bits of the first byte, what was read
      is its serial form. */
  lemma {:induction false} DatagramCanonical(src: seq<byte>)
    requires DecodeDatagram(src).Some?
    ensures var (d, size) := DecodeDatagram(src).value;
      && Sendable(d) && size == |EncodeDatagram(d)| <= |src|
      && src[1..size] == EncodeDatagram(d)[1..] && src[0] & 0x07 == EncodeDatagram(d)[0]
  {
    hide EncodeDatagram, DatagramInfo, U32Bytes, U16Bytes, ReadU32, ReadU16;
    var (d, size) := DecodeDatagram(src).value;
    ReadU16Small(src, 5);
    assert U32Bytes(d.id) == src[1..5] by { U32Forth(src, 1); }
    assert U16Bytes(|d.data|) == src[5..7] by { U16Forth(src, 5); }
    InfoCanonical(src[0]);
    EncodeTail(d);
    Pieces(src, size);
  }

  lemma {:induction false} EncodeTail(d: Datagram)
    ensures EncodeDatagram(d)[0] == DatagramInfo(d.unrel, d.first, d.last)
    ensures EncodeDatagram(d)[1..] == U32Bytes(d.id) + U16Bytes(|d.data|) + d.data
  {
  }

  lemma {:induction false} Pieces(src: seq<byte>, size: nat)
    requires 7 <= size <= |src|
    ensures src[1..size] == src[1..5] + src[5..7] + src[7..size]
  {
  }

  lemma {:induction false} ReadU16Small(src: seq<byte>, at: nat)
    requires at + 2 <= |src|
    ensures ReadU16(src, at) <= 0xffff
  {
    Small(src[at]);
    Small(src[at + 1]);
  }

  lemma {:induction false} InfoCanonical(info: byte)
    ensures DatagramInfo(info & 0x01 != 0, info & 0x02 != 0, info & 0x04 != 0) == info & 0x07
  {
  }

  function EncodeAll(ds: seq<Datagram>): seq<byte>
    decreases |ds|
  {
    if ds == [] then [] else EncodeDatagram(ds[0]) + EncodeAll(ds[1..])
  }

  /** Every datagram that can be read, one after another. */
  function DecodeAll(src: seq<byte>): seq<Datagram>
    decreases |src|
  {
    match DecodeDatagram(src)
    case None => []
    case Some((d, size)) => [d] + DecodeAll(src[size..])
  }

  lemma {:induction false} DecodeAllNext(src: seq<byte>)
    ensures DecodeAll(src) ==
      match DecodeDatagram(src)
      case None => []
      case Some((d, size)) => [d] + DecodeAll(src[size..])
  {
  }

  lemma {:induction false} AllRoundTrip(ds: seq<Datagram>)
    requires forall d :: d in ds ==> Sendable(d)
    ensures DecodeAll(EncodeAll(ds)) == ds
    decreases |ds|
  {
    if ds != [] {
      var src := EncodeAll(ds);
      DatagramRoundTrip(ds[0], EncodeAll(ds[1..]));
      assert src[|EncodeDatagram(ds[0])|..] == EncodeAll(ds[1..]);
      assert forall d :: d in ds[1..] ==> d in ds;
      AllRoundTrip(ds[1..]);
    }
  }

  lemma {:induction false} Concat(a: seq<byte>, b: seq<byte>, c: seq<byte>)
    ensures a + b + c == a + (b + c)
  {
  }

  lemma {:induction false} EncodeAllAppend(ds: seq<Datagram>, d: Datagram)
    ensures EncodeAll(ds + [d]) == EncodeAll(ds) + EncodeDatagram(d)
    decreases |ds|
  {
    if ds == [] {
      assert [d][1..] == [] && [] + [d] == [d];
      assert EncodeAll([d]) == EncodeDatagram(d) + EncodeAll([]);
    } else {
      var more := ds + [d];
      EncodeAllAppend(ds[1..], d);
      assert more[1..] == ds[1..] + [d] && more[0] == ds[0];
      Concat(EncodeDatagram(ds[0]), EncodeAll(ds[1..]), EncodeDatagram(d));
    }
  }
}
