/** The two ends of the unreliable channel: a queue whose entries expire, and a receiver which
    starts over at every first fragment. */
module Unreliable {
  import opened Words
  import opened Fragments

  datatype Entry = Entry(fragment: Fragment, expireTime: u64)

  function Timed(fs: seq<Fragment>, expireTime: u64): (es: seq<Entry>)
    ensures |es| == |fs| && forall i :: 0 <= i < |fs| ==> es[i] == Entry(fs[i], expireTime)
  {
    seq(|fs|, i requires 0 <= i < |fs| => Entry(fs[i], expireTime))
  }

  /** What is left once every expired entry at the front is gone. */
  function Unexpired(queue: seq<Entry>, now: u64): seq<Entry>
    decreases |queue|
  {
    if queue != [] && queue[0].expireTime <= now then Unexpired(queue[1..], now) else queue
  }

  /** The part removed is the longest expired front. */
  lemma {:induction false} UnexpiredIsSuffix(queue: seq<Entry>, now: u64)
    ensures var d := |queue| - |Unexpired(queue, now)|;
      && d >= 0
      && Unexpired(queue, now) == queue[d..]
      && (forall i :: 0 <= i < d ==> queue[i].expireTime <= now)
      && (d < |queue| ==> queue[d].expireTime > now)
    decreases |queue|
  {
    if queue != [] && queue[0].expireTime <= now {
      UnexpiredIsSuffix(queue[1..], now);
      var d := |queue| - |Unexpired(queue, now)|;
      assert queue[1..][d - 1..] == queue[d..];
      forall i | 0 <= i < d
        ensures queue[i].expireTime <= now
      {
        if i > 0 {
          assert queue[1..][i - 1] == queue[i];
        }
      }
    }
  }

  /** The sender: identifiers are given out only when an entry leaves the queue to be sent. */
  datatype Tx = Tx(queue: seq<Entry>, next: nat) {
    function Enqueue(packet: Packet, expireTime: u64, fragmentSize: nat): Tx
      requires fragmentSize > 0
    {
      this.(queue := queue + Timed(Fragmentize(packet, fragmentSize), expireTime))
    }

    function Expire(now: u64): Tx {
      this.(queue := Unexpired(queue, now))
    }

    function Send(): Tx
      requires queue != []
    {
      Tx(queue[1..], next + 1)
    }
  }

  class TxBuffer {
    var fragments: seq<Entry>
    var nextFragmentId: u32
    const fragmentSize: nat

    // The index whose low 32 bits are the identifier above.
    ghost var next: nat

    ghost function Model(): Tx
      reads this
    {
      Tx(fragments, next)
    }

    ghost predicate Valid()
      reads this
    {
      fragmentSize > 0 && nextFragmentId == Wire(next)
    }

    constructor (baseId: u32, fragmentSize: nat)
      requires fragmentSize > 0
      ensures Valid() && Model() == Tx([], baseId) && this.fragmentSize == fragmentSize
    {
      fragments := [];
      nextFragmentId := baseId;
      this.fragmentSize := fragmentSize;
      next := baseId;
    }

    method Push(packet: Packet, expireTime: u64)
      requires Valid()
      modifies this`fragments
      ensures Valid() && Model() == old(Model()).Enqueue(packet, expireTime, fragmentSize)
    {
      var bytesRemaining := |packet|;
      var index := 0;
      var first := true;
      ghost var before := fragments;
      ghost var all := Timed(Fragmentize(packet, fragmentSize), expireTime);

      while bytesRemaining > fragmentSize
        invariant 0 <= index && index + bytesRemaining == |packet| && bytesRemaining >= 0
        invariant fragments + Timed(Split(packet[index..], first, fragmentSize), expireTime) == before + all
        invariant Valid()
      {
        ghost var rest := packet[index..];
        var f := Fragment(first, false, packet[index..index + fragmentSize]);
        assert rest[..fragmentSize] == packet[index..index + fragmentSize];
        assert rest[fragmentSize..] == packet[index + fragmentSize..];
        assert Timed(Split(rest, first, fragmentSize), expireTime)
            == [Entry(f, expireTime)] + Timed(Split(rest[fragmentSize..], false, fragmentSize), expireTime);
        fragments := fragments + [Entry(f, expireTime)];
        first := false;
        index := index + fragmentSize;
        bytesRemaining := bytesRemaining - fragmentSize;
      }

      fragments := fragments + [Entry(Fragment(first, true, packet[index..|packet|]), expireTime)];
      assert packet[index..|packet|] == packet[index..];
    }

    method PopExpired(now: u64)
      requires Valid()
      modifies this`fragments
      ensures Valid() && Model() == old(Model()).Expire(now)
    {
      while |fragments| > 0 && fragments[0].expireTime <= now
        invariant Unexpired(fragments, now) == Unexpired(old(fragments), now)
        invariant Valid()
        decreases |fragments|
      {
        fragments := fragments[1..];
      }
    }

    method PeekSendable() returns (r: Option<(u32, Fragment)>)
      requires Valid()
      ensures r == if Model().queue == [] then None else Some((Wire(Model().next), Model().queue[0].fragment))
    {
      if |fragments| > 0 {
        return Some((nextFragmentId, fragments[0].fragment));
      }
      return None;
    }

    method PopSendable() returns (r: Option<(u32, Fragment)>)
      requires Valid()
      modifies this
      ensures Valid()
      ensures r == if old(fragments) == [] then None else Some((Wire(old(Model()).next), old(fragments)[0].fragment))
      ensures Model() == if old(fragments) == [] then old(Model()) else old(Model()).Send()
    {
      if |fragments| > 0 {
        var entry := fragments[0];
        var fragmentId := nextFragmentId;
        fragments := fragments[1..];
        WireNext(next);
        nextFragmentId := WrapAdd(nextFragmentId, 1);
        next := next + 1;
        return Some((fragmentId, entry.fragment));
      }
      return None;
    }
  }

  // ---- the receiver ----

  /** The receiver sees identifiers only, never the indices behind them. */
  datatype Rx = Rx(baseId: u32, build: Option<Packet>) {
    predicate Extends(id: u32, f: Fragment) {
      !f.first && id == baseId && build.Some?
    }

    predicate Takes(id: u32, f: Fragment, fragmentSize: nat) {
      SizeIsValid(f, fragmentSize) && (f.first || Extends(id, f))
    }

    /** The packet under construction once a fragment is taken. */
    function Grown(f: Fragment): Packet {
      if f.first || build.None? then f.data else build.value + f.data
    }

    function Receive(id: u32, f: Fragment, fragmentSize: nat): Rx {
      if Takes(id, f, fragmentSize) then Rx(WrapAdd(id, 1), if f.last then None else Some(Grown(f))) else this
    }

    function Completed(id: u32, f: Fragment, fragmentSize: nat): seq<Packet> {
      if Takes(id, f, fragmentSize) && f.last then [Grown(f)] else []
    }

    function Reset(): Rx {
      this.(build := None)
    }
  }

  class RxBuffer {
    const fragmentSize: nat
    var baseId: u32
    var currentBuild: Option<Packet>

    ghost function Model(): Rx
      reads this
    {
      Rx(baseId, currentBuild)
    }

    constructor (baseId: u32, fragmentSize: nat)
      requires fragmentSize > 0
      ensures Model() == Rx(baseId, None) && this.fragmentSize == fragmentSize
    {
      this.fragmentSize := fragmentSize;
      this.baseId := baseId;
      currentBuild := None;
    }

    method Receive(fragmentId: u32, fragment: Fragment) returns (r: Option<Packet>)
      modifies this
      ensures Model() == old(Model()).Receive(fragmentId, fragment, fragmentSize)
      ensures (if r.Some? then [r.value] else []) == old(Model()).Completed(fragmentId, fragment, fragmentSize)
    {
      var valid := !(fragment.last && |fragment.data| > fragmentSize)
                && !(!fragment.last && |fragment.data| != fragmentSize);
      if valid {
        if fragment.first {
          if fragment.last {
            currentBuild := None;
            baseId := WrapAdd(fragmentId, 1);
            return Some(fragment.data);
          } else {
            currentBuild := Some(fragment.data);
            baseId := WrapAdd(fragmentId, 1);
            return None;
          }
        } else if fragmentId == baseId {
          if currentBuild.Some? {
            currentBuild := Some(currentBuild.value + fragment.data);
            baseId := WrapAdd(fragmentId, 1);
            if fragment.last {
              var packet := currentBuild.value;
              currentBuild := None;
              return Some(packet);
            }
          }
        }
      }
      return None;
    }

    method Reset()
      modifies this`currentBuild
      ensures Model() == old(Model()).Reset()
    {
      currentBuild := None;
    }
  }
}
