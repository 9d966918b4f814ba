/** The reliable channel gets there: whatever the network has lost, what is pushed can still be delivered,
    and the sender sends again from the oldest fragment it is not sure of. */
module ReliableProgress {
  import opened Words
  import opened Fragments
  import opened Reliable
  import opened ReliableChannel

  /** Everything sent so far is lost. */
  function Lost(s: System): System {
    s.(data := {}, acks := {})
  }

  /** The fragment the sender would send now. */
  ghost function Offered(s: System): Option<DataFrame>
    requires s.tx.Valid()
  {
    if Enabled(s, Send) then Some(DataFrame(s.tx.next, s.tx.queue[s.tx.next - s.tx.base])) else None
  }

  /** What a connection is given to begin with. The window is no larger than a frame may grow old. */
  ghost predicate Running(s: System) {
    s.size > 0 && s.tx.Valid() && Inv(s) && s.tx.window <= MAX_AGE
  }

  lemma {:induction false} AfterNext(s: System, actions: seq<Action>, a: Action)
    requires s.size > 0 && s.tx.Valid()
    ensures var t := After(s, actions); After(s, actions + [a]) == if Enabled(t, a) then Step(t, a) else t
  {
    assert (actions + [a])[..|actions|] == actions;
  }

  lemma {:induction false} AfterConcat(s: System, a: seq<Action>, b: seq<Action>)
    requires s.size > 0 && s.tx.Valid()
    ensures After(s, a + b) == After(After(s, a), b)
    decreases |b|
  {
    if b == [] {
      assert a + b == a;
    } else {
      AfterConcat(s, a, b[..|b| - 1]);
      assert (a + b)[..|a + b| - 1] == a + b[..|b| - 1];
    }
  }

  lemma {:induction false} AfterOne(s: System, a: Action)
    requires s.size > 0 && s.tx.Valid()
    ensures After(s, [a]) == if Enabled(s, a) then Step(s, a) else s
  {
    AfterNext(s, [], a);
    assert [] + [a] == [a];
  }

  lemma {:induction false} OneStep(s: System, a: Action)
    requires Running(s) && Enabled(s, a)
    ensures After(s, [a]) == Step(s, a) && Running(Step(s, a))
  {
    AfterOne(s, a);
    StepKeepsInv(s, a);
    StepKeepsShape(s, a);
  }

  lemma {:induction false} LostHolds(s: System)
    requires Running(s)
    ensures Running(Lost(s)) && Stream(Lost(s)) == Stream(s)
  {
  }

  // ---- sending again ----

  /** After a timeout the oldest fragment not acknowledged is the next to be sent, however far the sender had
      got. */
  lemma {:induction false} TimeoutResends(s: System)
    requires Running(s) && s.tx.queue != []
    ensures Offered(After(s, [Timeout])) == Some(DataFrame(s.tx.base, s.tx.queue[0]))
  {
    hide Inv, After;
    OneStep(s, Timeout);
  }

  lemma {:induction false} DuplicateStep(s: System)
    requires Running(s) && s.tx.base in s.acks
    ensures var t := After(s, [DeliverAck(s.tx.base)]);
      && Running(t) && t == s.(tx := t.tx)
      && t.tx == if s.tx.duplicates == 2 then s.tx.(next := s.tx.base, duplicates := 0)
                 else s.tx.(duplicates := s.tx.duplicates + 1)
  {
    UnwrapAhead(s.tx.base, s.tx.base);
    OneStep(s, DeliverAck(s.tx.base));
  }

  /** So it is once the receiver has asked for it three times over. */
  lemma {:induction false} DuplicatesResend(s: System)
    requires Running(s) && s.tx.queue != [] && s.tx.base in s.acks
    ensures var ack := DeliverAck(s.tx.base);
      Offered(After(s, [ack, ack, ack])) == Some(DataFrame(s.tx.base, s.tx.queue[0]))
  {
    hide Inv;
    ThreeDuplicates(s);
    RewoundOffers(s);
  }

  /** And not before: from a fresh count the first two change nothing. */
  lemma {:induction false} TwoDuplicatesWait(s: System)
    requires Running(s) && s.tx.base in s.acks && s.tx.duplicates == 0
    ensures var ack := DeliverAck(s.tx.base);
      Offered(After(s, [ack])) == Offered(s) && Offered(After(s, [ack, ack])) == Offered(s)
  {
    hide Inv;
    ThreeDuplicates(s);
  }

  lemma {:induction false} ThreeDuplicates(s: System)
    requires Running(s) && s.tx.base in s.acks
    ensures var ack := DeliverAck(s.tx.base);
      && (s.tx.duplicates == 0 ==>
          && After(s, [ack]) == s.(tx := s.tx.(duplicates := 1))
          && After(s, [ack, ack]) == s.(tx := s.tx.(duplicates := 2)))
      && After(s, [ack, ack, ack]) == s.(tx := s.tx.(next := s.tx.base, duplicates := s.tx.duplicates))
  {
    hide Inv, After;
    var ack := DeliverAck(s.tx.base);
    DuplicateStep(s);
    var t := After(s, [ack]);
    DuplicateStep(t);
    var u := After(t, [ack]);
    DuplicateStep(u);
    AfterConcat(s, [ack], [ack]);
    assert [ack] + [ack] == [ack, ack];
    AfterConcat(s, [ack, ack], [ack]);
    assert [ack, ack] + [ack] == [ack, ack, ack];
  }

  lemma {:induction false} RewoundOffers(s: System)
    requires Running(s) && s.tx.queue != []
    ensures var t := s.(tx := s.tx.(next := s.tx.base, duplicates := s.tx.duplicates));
      t.tx.Valid() && Offered(t) == Some(DataFrame(s.tx.base, s.tx.queue[0]))
  {
  }

  /** An acknowledgement with news makes the sender repeat nothing: it goes on where it was, or from what is
      acknowledged if that is further. */
  lemma {:induction false} NewsKeepsPlace(s: System, k: nat)
    requires Running(s) && Enabled(s, DeliverAck(k)) && s.tx.base < k
    ensures var t := After(s, [DeliverAck(k)]);
      && (Offered(t).Some? ==> Offered(t).value.index >= s.tx.next)
      && (Offered(s).Some? && k <= s.tx.next ==> Offered(t) == Offered(s))
  {
    AckMeaning(s, k);
    NewsIs(s.tx, k);
    OneStep(s, DeliverAck(k));
    hide Inv, Tx.Acknowledge;
  }

  lemma {:induction false} NewsIs(tx: Tx, k: nat)
    requires tx.Valid() && tx.base < k <= tx.maxAck
    ensures tx.Acknowledge(Wire(k)) ==
      Tx(k, if k > tx.next then k else tx.next, tx.maxAck, tx.queue[k - tx.base..], tx.window, 0)
  {
    UnwrapAhead(tx.base, k);
  }

  // ---- getting there ----

  /** Both ends agree on what has arrived, and nothing since has been sent. */
  ghost predicate Settled(s: System) {
    Running(s) && s.tx.base == s.tx.next == s.rx.next
  }

  lemma {:induction false} Settles(s: System) returns (actions: seq<Action>)
    requires Running(s)
    ensures Settled(After(s, actions)) && After(s, actions).packets == s.packets
  {
    hide Inv, After, Tx.Acknowledge;
    var k := s.rx.next;
    OneStep(s, EmitAck);
    var t := Step(s, EmitAck);
    Between(s);
    if s.tx.base < k {
      AckMeaning(t, k);
      OneStep(t, DeliverAck(k));
      var u := Step(t, DeliverAck(k));
      OneStep(u, Timeout);
      AfterConcat(s, [EmitAck], [DeliverAck(k)]);
      AfterConcat(s, [EmitAck] + [DeliverAck(k)], [Timeout]);
      actions := [EmitAck] + [DeliverAck(k)] + [Timeout];
    } else {
      OneStep(t, Timeout);
      AfterConcat(s, [EmitAck], [Timeout]);
      actions := [EmitAck] + [Timeout];
    }
  }

  lemma {:induction false} Between(s: System)
    requires Running(s)
    ensures s.tx.base <= s.rx.next <= s.tx.maxAck <= s.rx.next + MAX_AGE
  {
  }

  /** One more fragment goes across and is acknowledged. */
  lemma {:induction false} OneMore(s: System) returns (actions: seq<Action>)
    requires Settled(s) && s.tx.queue != []
    ensures var t := After(s, actions);
      Settled(t) && t.packets == s.packets && |t.tx.queue| == |s.tx.queue| - 1
  {
    hide Inv, After, Tx.Acknowledge, Rx.Receive;
    var frame := DataFrame(s.tx.base, s.tx.queue[0]);
    SendStep(s);
    var t := After(s, [Send]);
    ReceiveStep(t, frame);
    var u := After(t, [DeliverData(frame)]);
    TellStep(u);
    AfterConcat(s, [Send], [DeliverData(frame)]);
    AfterConcat(s, [Send] + [DeliverData(frame)], [EmitAck] + [DeliverAck(u.rx.next)]);
    actions := [Send] + [DeliverData(frame)] + ([EmitAck] + [DeliverAck(u.rx.next)]);
  }

  lemma {:induction false} SendStep(s: System)
    requires Settled(s) && s.tx.queue != []
    ensures var t := After(s, [Send]);
      && Running(t) && t.rx == s.rx && t.packets == s.packets && t.tx.queue == s.tx.queue && t.tx.base == s.tx.base
      && t.tx.next == t.tx.base + 1 && DataFrame(s.tx.base, s.tx.queue[0]) in t.data
  {
    OneStep(s, Send);
  }

  lemma {:induction false} ReceiveStep(s: System, m: DataFrame)
    requires Running(s) && m in s.data && m.index == s.rx.next == s.tx.base
    ensures var t := After(s, [DeliverData(m)]);
      Running(t) && t.rx.next == s.rx.next + 1 && t.tx == s.tx && t.packets == s.packets
  {
    OneStep(s, DeliverData(m));
    AllSizesValid(s.packets, s.size);
    TakeInKeeps(s.rx, s.delivered, s.start, Stream(s), m.index, s.size);
  }

  lemma {:induction false} TellStep(s: System)
    requires Running(s) && s.rx.next == s.tx.next == s.tx.base + 1 && s.tx.queue != []
    ensures var t := After(s, [EmitAck] + [DeliverAck(s.rx.next)]);
      Settled(t) && t.packets == s.packets && |t.tx.queue| == |s.tx.queue| - 1
  {
    var k := s.rx.next;
    OneStep(s, EmitAck);
    var t := Step(s, EmitAck);
    AckMeaning(t, k);
    AckedNext(t.tx, k);
    OneStep(t, DeliverAck(k));
    AfterConcat(s, [EmitAck], [DeliverAck(k)]);
  }

  lemma {:induction false} AckedNext(tx: Tx, k: nat)
    requires tx.Valid() && tx.next == k && tx.base < k <= tx.maxAck
    ensures tx.Acknowledge(Wire(k)).next == k == tx.Acknowledge(Wire(k)).base
  {
    UnwrapAhead(tx.base, k);
  }

  lemma {:induction false} AllAcross(s: System) returns (actions: seq<Action>)
    requires Settled(s)
    ensures var t := After(s, actions); Settled(t) && t.packets == s.packets && t.tx.queue == []
    decreases |s.tx.queue|
  {
    if s.tx.queue == [] {
      actions := [];
    } else {
      var first := OneMore(s);
      var rest := AllAcross(After(s, first));
      AfterConcat(s, first, rest);
      actions := first + rest;
    }
  }

  lemma {:induction false} NothingLeft(s: System)
    requires Settled(s) && s.tx.queue == []
    ensures s.delivered == s.packets
  {
    var n := s.rx.next - s.start;
    assert Stream(s)[..n] == Stream(s);
    AssembleFragmentizeAll(s.packets, s.size);
  }

  /** From every state a run can reach, even if the network then loses all there is in it, some continuation
      in which nothing more is pushed delivers every packet, and the sender is told. */
  lemma {:induction false} CanAlwaysFinish(start: nat, size: nat, window: u32, before: seq<Action>)
    returns (actions: seq<Action>)
    requires size > 0 && 0 < window <= MAX_AGE
    ensures var s := After(Init(start, size, window), before);
      var t := After(Lost(s), actions);
      t.delivered == t.packets == s.packets && t.tx.queue == []
  {
    RunKeepsInv(start, size, window, before);
    var s := After(Init(start, size, window), before);
    LostHolds(s);
    var first := Settles(Lost(s));
    var rest := AllAcross(After(Lost(s), first));
    AfterConcat(Lost(s), first, rest);
    actions := first + rest;
    NothingLeft(After(Lost(s), actions));
  }

  /** And so it is with what is sent again: in every reachable state. */
  lemma {:induction false} ResendsInEveryRun(start: nat, size: nat, window: u32, before: seq<Action>)
    requires size > 0 && 0 < window <= MAX_AGE
    requires After(Init(start, size, window), before).tx.queue != []
    ensures var s := After(Init(start, size, window), before);
      Offered(After(s, [Timeout])) == Some(DataFrame(s.tx.base, s.tx.queue[0]))
  {
    RunKeepsInv(start, size, window, before);
    TimeoutResends(After(Init(start, size, window), before));
  }
}
