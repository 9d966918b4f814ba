/** The receiving end of the two channels: datagrams are taken in one after another. */
module Mailbox {
  import opened Fragments
  import opened Codec
  import opened Words
  import opened Sending
  import Reliable
  import Unreliable

  /** The two receivers, and the packets they have completed. */
  datatype Mail = Mail(unrel: Unreliable.Rx, rel: Reliable.Rx, packets: seq<Packet>)

  function Take(m: Mail, d: Datagram): Mail {
    var f := Fragment(d.first, d.last, d.data);
    if d.unrel then
      Mail(m.unrel.Receive(d.id, f, FRAGMENT_SIZE), m.rel, m.packets + m.unrel.Completed(d.id, f, FRAGMENT_SIZE))
    else
      Mail(m.unrel, m.rel.Receive(d.id, f, FRAGMENT_SIZE), m.packets + m.rel.Completed(d.id, f, FRAGMENT_SIZE))
  }

  function TakeAll(m: Mail, ds: seq<Datagram>): Mail
    decreases |ds|
  {
    if ds == [] then m else Take(TakeAll(m, ds[..|ds| - 1]), ds[|ds| - 1])
  }

  lemma {:induction false} TakeAllConcat(m: Mail, a: seq<Datagram>, b: seq<Datagram>)
    ensures TakeAll(m, a + b) == TakeAll(TakeAll(m, a), b)
    decreases |b|
  {
    if b == [] {
      assert a + b == a;
    } else {
      assert (a + b)[..|a + b| - 1] == a + b[..|b| - 1];
      TakeAllConcat(m, a, b[..|b| - 1]);
    }
  }

  predicate AnyReliable(ds: seq<Datagram>)
    decreases |ds|
  {
    ds != [] && (AnyReliable(ds[..|ds| - 1]) || !ds[|ds| - 1].unrel)
  }

  lemma {:induction false} AnyReliableConcat(a: seq<Datagram>, b: seq<Datagram>)
    ensures AnyReliable(a + b) == (AnyReliable(a) || AnyReliable(b))
    decreases |b|
  {
    if b == [] {
      assert a + b == a;
    } else {
      assert (a + b)[..|a + b| - 1] == a + b[..|b| - 1];
      AnyReliableConcat(a, b[..|b| - 1]);
    }
  }

  /** The datagrams of segments handed over one after another. */
  function DecodeEach(payloads: seq<seq<byte>>): seq<Datagram>
    decreases |payloads|
  {
    if payloads == [] then [] else DecodeEach(payloads[..|payloads| - 1]) + DecodeAll(payloads[|payloads| - 1])
  }

  lemma {:induction false} DecodeEachNext(payloads: seq<seq<byte>>, i: nat)
    requires i < |payloads|
    ensures DecodeEach(payloads[..i + 1]) == DecodeEach(payloads[..i]) + DecodeAll(payloads[i])
  {
    assert payloads[..i + 1][..i] == payloads[..i];
  }
}
