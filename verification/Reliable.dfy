/** The two ends of the reliable channel. Both keep 32-bit identifiers; their contracts speak of
    the unbounded indices behind them. */
module Reliable {
  import opened Words
  import opened Fragments

  // ---- the sender, in unbounded indices ----

  /** Fragments from index `base` on are queued; those before `next` have been sent since the last
      rewind, and those before `maxAck` have ever been sent and so may be acknowledged. */
  datatype Tx = Tx(base: nat, next: nat, maxAck: nat, queue: seq<Fragment>, window: u32, duplicates: nat) {
    predicate Ordered() {
      && window > 0
      && base <= next <= maxAck <= base + window
      && maxAck <= base + |queue|
    }

    predicate Valid() {
      Ordered() && duplicates < 3
    }

    predicate CanSend() {
      next < base + window && next < base + |queue|
    }

    function Enqueue(packet: Packet, fragmentSize: nat): Tx
      requires fragmentSize > 0
    {
      this.(queue := queue + Fragmentize(packet, fragmentSize))
    }

    function Send(): Tx {
      this.(next := next + 1, maxAck := if next == maxAck then next + 1 else maxAck)
    }

    function Rewind(): Tx {
      this.(next := base, duplicates := 0)
    }

    /** Whether the receiver expecting `id` next is news, a duplicate, or nonsense. */
    predicate Accepts(id: u32) {
      Unwrap(base, id) <= maxAck
    }

    function Acknowledge(id: u32): Tx
      requires Valid()
    {
      var k := Unwrap(base, id);
      if k == base then
        if duplicates == 2 then Rewind() else this.(duplicates := duplicates + 1)
      else if k <= maxAck then
        Tx(k, if k > next then k else next, maxAck, queue[k - base..], window, 0)
      else this
    }
  }

  lemma {:induction false} TxStepsKeepValid(tx: Tx, packet: Packet, fragmentSize: nat, id: u32)
    requires tx.Valid() && fragmentSize > 0
    ensures tx.Enqueue(packet, fragmentSize).Valid()
    ensures tx.CanSend() ==> tx.Send().Valid()
    ensures tx.Rewind().Valid()
    ensures tx.Acknowledge(id).Valid()
  {
  }

  class TxBuffer {
    var fragments: seq<Fragment>
    var nextSendId: u32
    var maxAckId: u32
    const fragmentSize: nat
    var sendWindow: Window
    var duplicateAckCount: u32

    // The indices whose low 32 bits are the identifiers above.
    ghost var base: nat
    ghost var next: nat
    ghost var maxAck: nat

    ghost function Model(): Tx
      reads this
    {
      Tx(base, next, maxAck, fragments, sendWindow.size, duplicateAckCount)
    }

    ghost predicate Consistent()
      reads this
    {
      && fragmentSize > 0
      && sendWindow.baseId == Wire(base) && nextSendId == Wire(next) && maxAckId == Wire(maxAck)
      && Model().Ordered()
    }

    ghost predicate Valid()
      reads this
    {
      Consistent() && Model().Valid()
    }

    constructor (baseId: u32, fragmentSize: nat, windowSize: u32)
      requires windowSize > 0 && fragmentSize > 0
      ensures Valid() && Model() == Tx(baseId, baseId, baseId, [], windowSize, 0)
      ensures this.fragmentSize == fragmentSize
    {
      fragments := [];
      nextSendId := baseId;
      maxAckId := baseId;
      this.fragmentSize := fragmentSize;
      sendWindow := Window(baseId, windowSize);
      duplicateAckCount := 0;
      base, next, maxAck := baseId, baseId, baseId;
    }

    method Push(packet: Packet)
      requires Valid()
      modifies this`fragments
      ensures Valid() && Model() == old(Model()).Enqueue(packet, fragmentSize)
    {
      var bytesRemaining := |packet|;
      var index := 0;
      var first := true;
      ghost var before := fragments;

      while bytesRemaining > fragmentSize
        invariant 0 <= index && index + bytesRemaining == |packet| && bytesRemaining >= 0
        invariant fragments + Split(packet[index..], first, fragmentSize) == before + Fragmentize(packet, fragmentSize)
        invariant Valid()
      {
        ghost var rest := packet[index..];
        fragments := fragments + [Fragment(first, false, packet[index..index + fragmentSize])];
        assert rest[..fragmentSize] == packet[index..index + fragmentSize];
        assert rest[fragmentSize..] == packet[index + fragmentSize..];
        first := false;
        index := index + fragmentSize;
        bytesRemaining := bytesRemaining - fragmentSize;
      }

      fragments := fragments + [Fragment(first, true, packet[index..|packet|])];
      assert packet[index..|packet|] == packet[index..];
    }

    method PeekSendable() returns (r: Option<(u32, Fragment)>)
      requires Valid()
      ensures r.Some? <==> Model().CanSend()
      ensures r.Some? ==> r.value == (Wire(Model().next), Model().queue[Model().next - Model().base])
    {
      WireDistance(base, next);
      if sendWindow.Contains(nextSendId) {
        var idx := WrapSub(nextSendId, sendWindow.baseId);
        if idx < |fragments| {
          return Some((nextSendId, fragments[idx]));
        }
      }
      return None;
    }

    method PopSendable() returns (r: Option<(u32, Fragment)>)
      requires Valid()
      modifies this`nextSendId, this`maxAckId, this`next, this`maxAck
      ensures Valid()
      ensures r.Some? <==> old(Model()).CanSend()
      ensures r.Some? ==> r.value == (Wire(old(Model()).next), old(Model()).queue[old(Model()).next - base])
      ensures Model() == if r.Some? then old(Model()).Send() else old(Model())
    {
      WireDistance(base, next);
      if sendWindow.Contains(nextSendId) {
        var idx := WrapSub(nextSendId, sendWindow.baseId);
        if idx < |fragments| {
          var fragmentId := nextSendId;
          var equal := nextSendId == maxAckId;
          WireDistance(next, maxAck);
          WireNext(next);
          nextSendId := WrapAdd(nextSendId, 1);
          next := next + 1;
          if equal {
            maxAckId := nextSendId;
            maxAck := next;
          }
          return Some((fragmentId, fragments[idx]));
        }
      }
      return None;
    }

    method ResendAll()
      requires Consistent()
      modifies this`duplicateAckCount, this`nextSendId, this`next
      ensures Valid() && Model() == old(Model()).Rewind()
    {
      duplicateAckCount := 0;
      nextSendId := sendWindow.baseId;
      next := base;
    }

    method Acknowledge(newBaseId: u32) returns (accepted: bool)
      requires Valid()
      modifies this
      ensures Valid() && Model() == old(Model()).Acknowledge(newBaseId)
      ensures accepted <==> old(Model()).Accepts(newBaseId)
    {
      UnwrapWire(base, newBaseId);
      WireDistance(base, next);
      WireDistance(base, maxAck);
      ghost var k := Unwrap(base, newBaseId);
      if newBaseId == sendWindow.baseId {
        duplicateAckCount := duplicateAckCount + 1;
        if duplicateAckCount == 3 {
          ResendAll();
        }
        accepted := true;
      } else {
        var newBaseDelta := WrapSub(newBaseId, sendWindow.baseId);
        var maxAckDelta := WrapSub(maxAckId, sendWindow.baseId);

        if newBaseDelta <= maxAckDelta {
          var nextSendDelta := WrapSub(nextSendId, sendWindow.baseId);

          fragments := fragments[newBaseDelta..];
          sendWindow := sendWindow.(baseId := newBaseId);
          base := k;
          if newBaseDelta > nextSendDelta {
            nextSendId := newBaseId;
            next := base;
          }
          duplicateAckCount := 0;
          accepted := true;
        } else {
          accepted := false;
        }
      }
    }
  }

  // ---- the receiver ----

  /** Fragments before index `next` have been taken in. */
  datatype Rx = Rx(next: nat, build: Option<Packet>) {
    predicate Expects(id: u32, f: Fragment, fragmentSize: nat) {
      id == Wire(next) && SizeIsValid(f, fragmentSize)
    }

    function Receive(id: u32, f: Fragment, fragmentSize: nat): Rx {
      if Expects(id, f, fragmentSize) then Rx(next + 1, Append(Assembly(build, []), f).build) else this
    }

    /** The packet completed by a fragment, if any: at most one. */
    function Completed(id: u32, f: Fragment, fragmentSize: nat): seq<Packet> {
      if Expects(id, f, fragmentSize) then Append(Assembly(build, []), f).done else []
    }
  }

  class RxBuffer {
    const fragmentSize: nat
    var nextFragmentId: u32
    var currentBuild: Option<Packet>

    ghost var next: nat

    ghost function Model(): Rx
      reads this
    {
      Rx(next, currentBuild)
    }

    ghost predicate Valid()
      reads this
    {
      fragmentSize > 0 && nextFragmentId == Wire(next)
    }

    constructor (baseId: u32, fragmentSize: nat)
      requires fragmentSize > 0
      ensures Valid() && Model() == Rx(baseId, None)
      ensures this.fragmentSize == fragmentSize
    {
      this.fragmentSize := fragmentSize;
      nextFragmentId := baseId;
      currentBuild := None;
      next := baseId;
    }

    method FragmentIsValid(fragment: Fragment) returns (valid: bool)
      ensures valid == SizeIsValid(fragment, fragmentSize)
    {
      if fragment.last && |fragment.data| > fragmentSize {
        return false;
      }
      if !fragment.last && |fragment.data| != fragmentSize {
        return false;
      }
      return true;
    }

    method Receive(fragmentId: u32, fragment: Fragment) returns (r: Option<Packet>)
      requires Valid()
      modifies this
      ensures Valid() && Model() == old(Model()).Receive(fragmentId, fragment, fragmentSize)
      ensures (if r.Some? then [r.value] else []) == old(Model()).Completed(fragmentId, fragment, fragmentSize)
    {
      var valid := FragmentIsValid(fragment);
      if fragmentId == nextFragmentId && valid {
        var buffer := if currentBuild.Some? then currentBuild.value else [];
        currentBuild := Some(buffer + fragment.data);
        WireNext(next);
        nextFragmentId := WrapAdd(nextFragmentId, 1);
        next := next + 1;
        if fragment.last {
          var packet := currentBuild.value;
          currentBuild := None;
          return Some(packet);
        }
      }
      return None;
    }
  }
}
