/** The reliable channel end to end: a sender, a receiver, and a network which may lose,
    duplicate, reorder and delay everything, up to a maximum age. */
module ReliableChannel {
  import opened Words
  import opened Fragments
  import opened Reliable

  /** No frame is delivered once the sender is more than this many identifiers past it. */
  const MAX_AGE: nat := 0x8000_0000

  datatype DataFrame = DataFrame(index: nat, fragment: Fragment)

  /** `data` and `acks` hold every frame ever sent; a frame never delivered is lost, one delivered
      twice is duplicated. Frames are labelled with unbounded indices, but only the low 32 bits
      of an index reach the other end. */
  datatype System = System(
    size: nat,
    start: nat,
    packets: seq<Packet>,
    tx: Tx,
    rx: Rx,
    delivered: seq<Packet>,
    data: set<DataFrame>,
    acks: set<nat>)

  datatype Action =
    | Push(packet: Packet)
    | Send
    | Timeout
    | DeliverData(frame: DataFrame)
    | EmitAck
    | DeliverAck(ack: nat)

  ghost predicate Enabled(s: System, a: Action) {
    match a
    case Push(_) => true
    case Send => s.tx.CanSend()
    case Timeout => true
    case DeliverData(m) => m in s.data && s.tx.maxAck <= m.index + MAX_AGE
    case EmitAck => true
    case DeliverAck(k) => k in s.acks && s.tx.maxAck <= k + MAX_AGE
  }

  ghost function Step(s: System, a: Action): System
    requires s.size > 0 && s.tx.Valid() && Enabled(s, a)
  {
    match a
    case Push(p) => s.(packets := s.packets + [p], tx := s.tx.Enqueue(p, s.size))
    case Send => s.(tx := s.tx.Send(), data := s.data + {DataFrame(s.tx.next, s.tx.queue[s.tx.next - s.tx.base])})
    case Timeout => s.(tx := s.tx.Rewind())
    case DeliverData(m) =>
      s.(rx := s.rx.Receive(Wire(m.index), m.fragment, s.size),
         delivered := s.delivered + s.rx.Completed(Wire(m.index), m.fragment, s.size))
    case EmitAck => s.(acks := s.acks + {s.rx.next})
    case DeliverAck(k) => s.(tx := s.tx.Acknowledge(Wire(k)))
  }

  /** A fresh connection whose first identifier is the low 32 bits of `start`. */
  function Init(start: nat, size: nat, window: u32): System {
    System(size, start, [], Tx(start, start, start, [], window, 0), Rx(start, None), [], {}, {})
  }

  lemma {:induction false} StepKeepsShape(s: System, a: Action)
    requires s.size > 0 && s.tx.Valid() && Enabled(s, a)
    ensures var t := Step(s, a);
      t.size == s.size && t.start == s.start && t.tx.Valid() && t.tx.window == s.tx.window
  {
    match a
    case Push(p) => TxStepsKeepValid(s.tx, p, s.size, 0);
    case DeliverAck(k) => TxStepsKeepValid(s.tx, [], s.size, Wire(k));
    case _ => TxStepsKeepValid(s.tx, [], s.size, 0);
  }

  /** The state after a run; an action which is not enabled changes nothing. */
  ghost function After(s: System, actions: seq<Action>): (t: System)
    requires s.size > 0 && s.tx.Valid()
    ensures t.size == s.size && t.start == s.start && t.tx.Valid() && t.tx.window == s.tx.window
    decreases |actions|
  {
    if actions == [] then s
    else
      var t := After(s, actions[..|actions| - 1]);
      var a := actions[|actions| - 1];
      if Enabled(t, a) then StepKeepsShape(t, a); Step(t, a) else t
  }

  /** Every fragment of every packet pushed so far. */
  function Stream(s: System): seq<Fragment>
    requires s.size > 0
  {
    FragmentizeAll(s.packets, s.size)
  }

  ghost predicate QueueHolds(tx: Tx, start: nat, stream: seq<Fragment>) {
    start <= tx.base <= start + |stream| && tx.queue == stream[tx.base - start..]
  }

  ghost predicate DataHolds(data: set<DataFrame>, start: nat, end: nat, stream: seq<Fragment>) {
    forall m :: m in data ==>
      start <= m.index < end && m.index < start + |stream| && m.fragment == stream[m.index - start]
  }

  ghost predicate RxHolds(rx: Rx, delivered: seq<Packet>, start: nat, stream: seq<Fragment>) {
    && start <= rx.next <= start + |stream|
    && Assembly(rx.build, delivered) == Assemble(NOTHING, stream[..rx.next - start])
  }

  ghost predicate AcksHold(acks: set<nat>, start: nat, end: nat) {
    forall k :: k in acks ==> start <= k <= end
  }

  /** What holds of the parts, whatever has been pushed. */
  ghost predicate Holds(tx: Tx, rx: Rx, data: set<DataFrame>, acks: set<nat>, delivered: seq<Packet>, start: nat,
                        stream: seq<Fragment>)
  {
    && tx.Valid()
    && tx.base <= rx.next <= tx.maxAck
    && QueueHolds(tx, start, stream)
    && DataHolds(data, start, tx.maxAck, stream)
    && AcksHold(acks, start, rx.next)
    && RxHolds(rx, delivered, start, stream)
  }

  ghost predicate Inv(s: System) {
    s.size > 0 && Holds(s.tx, s.rx, s.data, s.acks, s.delivered, s.start, Stream(s))
  }

  lemma {:induction false} LongerStream(s: System, more: seq<Fragment>)
    requires Inv(s)
    ensures QueueHolds(s.tx.(queue := s.tx.queue + more), s.start, Stream(s) + more)
    ensures DataHolds(s.data, s.start, s.tx.maxAck, Stream(s) + more)
    ensures RxHolds(s.rx, s.delivered, s.start, Stream(s) + more)
  {
    assert (Stream(s) + more)[..s.rx.next - s.start] == Stream(s)[..s.rx.next - s.start];
  }

  lemma {:induction false} PushKeepsInv(s: System, p: Packet)
    requires Inv(s)
    ensures Inv(Step(s, Push(p)))
  {
    var t := Step(s, Push(p));
    assert t.packets[..|t.packets| - 1] == s.packets;
    LongerStream(s, Fragmentize(p, s.size));
  }

  lemma {:induction false} SendKeepsHolds(tx: Tx, rx: Rx, data: set<DataFrame>, acks: set<nat>, delivered: seq<Packet>,
                                          start: nat, stream: seq<Fragment>)
    requires Holds(tx, rx, data, acks, delivered, start, stream) && tx.CanSend()
    ensures var sent := DataFrame(tx.next, tx.queue[tx.next - tx.base]);
      Holds(tx.Send(), rx, data + {sent}, acks, delivered, start, stream)
  {
    assert tx.queue[tx.next - tx.base] == stream[tx.next - start];
  }

  lemma {:induction false} SendKeepsInv(s: System)
    requires Inv(s) && Enabled(s, Send)
    ensures Inv(Step(s, Send))
  {
    SendKeepsHolds(s.tx, s.rx, s.data, s.acks, s.delivered, s.start, Stream(s));
  }

  lemma {:induction false} TakeInKeeps(rx: Rx, delivered: seq<Packet>, start: nat, stream: seq<Fragment>, k: nat,
                                       size: nat)
    requires RxHolds(rx, delivered, start, stream)
    requires start <= k < start + |stream| && SizeIsValid(stream[k - start], size)
    requires k < rx.next + LAP && rx.next < k + LAP
    ensures var f := stream[k - start];
      && RxHolds(rx.Receive(Wire(k), f, size), delivered + rx.Completed(Wire(k), f, size), start, stream)
      && rx.Receive(Wire(k), f, size).next == if k == rx.next then k + 1 else rx.next
  {
    if k < rx.next { SameWire(k, rx.next); } else { SameWire(rx.next, k); }
    if k == rx.next {
      var n := k - start;
      assert stream[..n + 1][..n] == stream[..n];
      AppendSplits(rx.build, delivered, stream[n]);
    }
  }

  lemma {:induction false} DeliverDataKeepsInv(s: System, m: DataFrame)
    requires Inv(s) && Enabled(s, DeliverData(m))
    ensures Inv(Step(s, DeliverData(m)))
  {
    AllSizesValid(s.packets, s.size);
    TakeInKeeps(s.rx, s.delivered, s.start, Stream(s), m.index, s.size);
  }

  lemma {:induction false} AppendSplits(build: Option<Packet>, done: seq<Packet>, f: Fragment)
    ensures Append(Assembly(build, done), f).build == Append(Assembly(build, []), f).build
    ensures Append(Assembly(build, done), f).done == done + Append(Assembly(build, []), f).done
  {
  }

  lemma {:induction false} AckOf(tx: Tx, k: nat)
    requires tx.Valid() && k <= tx.maxAck <= k + MAX_AGE
    ensures tx.Accepts(Wire(k)) <==> tx.base <= k
    ensures k < tx.base ==> tx.Acknowledge(Wire(k)) == tx
    ensures k == tx.base ==> tx.Acknowledge(Wire(k)).base == k && tx.Acknowledge(Wire(k)).queue == tx.queue
    ensures k > tx.base ==>
      tx.Acknowledge(Wire(k)).base == k && tx.Acknowledge(Wire(k)).queue == tx.queue[k - tx.base..]
    ensures tx.Acknowledge(Wire(k)).maxAck == tx.maxAck
  {
    if tx.base <= k {
      UnwrapAhead(tx.base, k);
    } else {
      UnwrapBehind(tx.base, k);
    }
  }

  /** What an acknowledgement young enough to be delivered does: it removes exactly what the
      receiver had taken in when it was sent, and an overtaken one does nothing. */
  lemma {:induction false} AckMeaning(s: System, k: nat)
    requires Inv(s) && Enabled(s, DeliverAck(k))
    ensures s.tx.Accepts(Wire(k)) <==> s.tx.base <= k
    ensures k < s.tx.base ==> s.tx.Acknowledge(Wire(k)) == s.tx
    ensures k >= s.tx.base ==>
      && s.tx.Acknowledge(Wire(k)).base == k <= s.rx.next
      && s.tx.Acknowledge(Wire(k)).queue == s.tx.queue[k - s.tx.base..]
    ensures s.tx.Acknowledge(Wire(k)).maxAck == s.tx.maxAck
  {
    AckOf(s.tx, k);
    assert s.tx.queue[0..] == s.tx.queue;
  }

  lemma {:induction false} DeliverAckKeepsInv(s: System, k: nat)
    requires Inv(s) && Enabled(s, DeliverAck(k))
    ensures Inv(Step(s, DeliverAck(k)))
  {
    AckMeaning(s, k);
    TxStepsKeepValid(s.tx, [], s.size, Wire(k));
    if k > s.tx.base {
      assert s.tx.queue[k - s.tx.base..] == Stream(s)[k - s.start..];
    }
  }

  lemma {:induction false} LocalStepsKeepHolds(tx: Tx, rx: Rx, data: set<DataFrame>, acks: set<nat>,
                                               delivered: seq<Packet>, start: nat, stream: seq<Fragment>)
    requires Holds(tx, rx, data, acks, delivered, start, stream)
    ensures Holds(tx.Rewind(), rx, data, acks, delivered, start, stream)
    ensures Holds(tx, rx, data, acks + {rx.next}, delivered, start, stream)
  {
  }

  lemma {:induction false} StepKeepsInv(s: System, a: Action)
    requires Inv(s) && Enabled(s, a)
    ensures Inv(Step(s, a))
  {
    LocalStepsKeepHolds(s.tx, s.rx, s.data, s.acks, s.delivered, s.start, Stream(s));
    match a
    case Push(p) => PushKeepsInv(s, p);
    case Send => SendKeepsInv(s);
    case Timeout =>
    case DeliverData(m) => DeliverDataKeepsInv(s, m);
    case EmitAck =>
    case DeliverAck(k) => DeliverAckKeepsInv(s, k);
  }

  lemma {:induction false} NothingHolds(start: nat, window: u32)
    requires window > 0
    ensures Holds(Tx(start, start, start, [], window, 0), Rx(start, None), {}, {}, [], start, [])
  {
    var none: seq<Fragment> := [];
    assert none[0..] == none && none[..0] == none;
  }

  lemma {:induction false} InitHolds(start: nat, size: nat, window: u32)
    requires size > 0 && window > 0
    ensures Inv(Init(start, size, window))
  {
    NothingHolds(start, window);
    assert Stream(Init(start, size, window)) == [];
  }

  lemma {:induction false} RunKeepsInv(start: nat, size: nat, window: u32, actions: seq<Action>)
    requires size > 0 && window > 0
    ensures Inv(After(Init(start, size, window), actions))
    decreases |actions|
  {
    var s := Init(start, size, window);
    if actions == [] {
      InitHolds(start, size, window);
    } else {
      RunKeepsInv(start, size, window, actions[..|actions| - 1]);
      var t := After(s, actions[..|actions| - 1]);
      var a := actions[|actions| - 1];
      if Enabled(t, a) {
        StepKeepsInv(t, a);
      }
    }
  }

  // ---- what the channel promises ----

  /** In every run, what the receiver has returned is, byte for byte, a prefix of what was pushed;
      and once it has taken in every fragment it has returned everything. */
  lemma {:induction false} ReliableDelivery(start: nat, size: nat, window: u32, actions: seq<Action>)
    requires size > 0 && window > 0
    ensures var s := After(Init(start, size, window), actions);
      && s.delivered <= s.packets
      && (s.rx.next - start == |Stream(s)| ==> s.delivered == s.packets && s.rx.build == None)
  {
    RunKeepsInv(start, size, window, actions);
    var s := After(Init(start, size, window), actions);
    var n := s.rx.next - start;
    AssemblePrefix(s.packets, size, n);
    if n == |Stream(s)| {
      assert Stream(s)[..n] == Stream(s);
      AssembleFragmentizeAll(s.packets, size);
    }
  }

  /** In every run, the sender has forgotten only what the receiver has taken in, holds exactly the
      rest, and never runs ahead of its window or its queue. */
  lemma {:induction false} ForgetsOnlyReceived(start: nat, size: nat, window: u32, actions: seq<Action>)
    requires size > 0 && window > 0
    ensures var s := After(Init(start, size, window), actions);
      && start <= s.tx.base <= s.rx.next <= s.tx.maxAck
      && s.tx.base <= s.tx.next <= s.tx.maxAck
      && s.tx.maxAck - s.tx.base <= (if window <= |s.tx.queue| then window else |s.tx.queue|)
      && s.tx.base - start <= |Stream(s)|
      && s.tx.queue == Stream(s)[s.tx.base - start..]
  {
    RunKeepsInv(start, size, window, actions);
  }

  /** The age limit is what keeps an overtaken acknowledgement out, and a lap is exactly the limit. */
  lemma {:induction false} StaleAckRejectedExactly(tx: Tx, k: nat)
    requires tx.Valid() && k < tx.base <= k + LAP
    ensures tx.Accepts(Wire(k)) <==> k + LAP <= tx.maxAck
  {
    UnwrapBehind(tx.base, k);
  }

  /** Likewise for an overtaken fragment: it is mistaken for the next one exactly when it is a
      whole number of laps old. */
  lemma {:induction false} StaleFragmentTakenExactly(rx: Rx, k: nat, f: Fragment, size: nat)
    requires k <= rx.next && SizeIsValid(f, size)
    ensures rx.Receive(Wire(k), f, size) != rx <==> (rx.next - k) % LAP == 0
  {
    SameWire(k, rx.next);
  }
}
