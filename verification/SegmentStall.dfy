/** A window of segments lost on the segment layer: when a sync brings the two sides together again, and
    when nothing does. */
module SegmentStall {
  import opened Words
  import opened Bits
  import opened Fragments
  import opened SegmentChannel
  import T = SegmentTx
  import R = SegmentRx

  /** A run from a given state; an action which is not enabled changes nothing. */
  ghost function Continue(s: System, actions: seq<Action>): (t: System)
    requires Inv(s)
    ensures Inv(t)
    decreases |actions|
  {
    if actions == [] then s
    else
      var t := Continue(s, actions[..|actions| - 1]);
      var a := actions[|actions| - 1];
      if Enabled(t, a) then StepKeepsInv(t, a); Step(t, a) else t
  }

  lemma {:induction false} ContinueNext(s: System, actions: seq<Action>, a: Action)
    requires Inv(s)
    ensures var t := Continue(s, actions);
      Continue(s, actions + [a]) == if Enabled(t, a) then Step(t, a) else t
  {
    assert (actions + [a])[..|actions|] == actions;
  }

  /** Everything the receiver took in is acknowledged, nothing waits there, and the sender has filled its
      window with segments none of which has arrived. */
  ghost predicate WindowLost(s: System) {
    && Inv(s) && s.rx.pending == [] && s.tx.base == |s.rx.log|
    && s.tx.next == s.tx.base + s.tx.size && 0 < s.tx.size <= s.rx.size
  }

  /** Syncs and acknowledgements may travel, but no segment arrives. */
  ghost predicate NoSegments(actions: seq<Action>) {
    forall a :: a in actions ==> !a.DeliverSegment?
  }

  /** Whatever is sent, the sender never gets to send another segment. */
  ghost predicate Stalled(s: System)
    requires Inv(s)
  {
    forall actions :: NoSegments(actions) ==> !Continue(s, actions).tx.CanSend()
  }

  // ---- stuck ----

  lemma {:induction false} SyncIgnored(s: System, k: nat)
    requires WindowLost(s) && s.tx.size <= Wire(|s.rx.log|) && Enabled(s, DeliverSync(k))
    ensures s.rx.Sync(Wire(k)) == s.rx
  {
    var log := s.rx.log;
    WindowTells(|log|, k, s.tx.next, s.rx.size);
    if k > |log| {
      R.EmptySyncIgnoredExactly(s.rx, k);
    }
  }

  lemma {:induction false} StaysLost(s: System, a: Action)
    requires WindowLost(s) && s.tx.size <= Wire(|s.rx.log|) && Enabled(s, a) && !a.DeliverSegment?
    ensures WindowLost(Step(s, a)) && Step(s, a).tx.size == s.tx.size && Step(s, a).rx == s.rx
  {
    StepKeepsInv(s, a);
    match a
    case EmitAck(_) =>
    case DeliverAck(ack) =>
      AckMeaning(s, ack);
      AckKeepsSent(s.tx, Wire(ack.base), ack.heard, ack.checksum, s.start, s.sent);
    case EmitSync =>
    case DeliverSync(k) => SyncIgnored(s, k);
  }

  lemma {:induction false} KeepsLost(s: System, actions: seq<Action>)
    requires WindowLost(s) && s.tx.size <= Wire(|s.rx.log|) && NoSegments(actions)
    ensures var t := Continue(s, actions);
      WindowLost(t) && t.tx.size == s.tx.size && t.rx == s.rx
    decreases |actions|
  {
    if actions != [] {
      var front, a := actions[..|actions| - 1], actions[|actions| - 1];
      assert a in actions && forall b :: b in front ==> b in actions;
      KeepsLost(s, front);
      if Enabled(Continue(s, front), a) {
        StaysLost(Continue(s, front), a);
      }
    }
  }

  // ---- recovering ----

  /** The acknowledgement the receiver would compose. */
  ghost function AckNow(s: System): (ack: Ack)
    ensures Reports(s.rx.log, ack)
  {
    Ack(|s.rx.log|, seq(32, i requires 0 <= i < 32 => i < R.ACK_BITS && R.Reported(s.rx.log, i)),
        R.LogParity(s.rx.log, R.ACK_BITS))
  }

  lemma {:induction false} SyncTakes(rx: R.Rx, k: nat)
    requires rx.Valid() && rx.pending == [] && |rx.log| + Wire(|rx.log|) < k <= |rx.log| + rx.size
    ensures |rx.Sync(Wire(k)).log| == k
  {
    R.EmptySyncIgnoredExactly(rx, k);
    UnwrapAhead(|rx.log|, k);
    R.SyncAccounts(rx, Wire(k));
  }

  lemma {:induction false} SyncHeeded(s: System) returns (t: System)
    requires WindowLost(s) && s.tx.size > Wire(|s.rx.log|)
    ensures t == Continue(s, [EmitSync, DeliverSync(s.tx.next)])
    ensures Inv(t) && t.tx == s.tx && |t.rx.log| == s.tx.next
  {
    var k := s.tx.next;
    assert Continue(s, []) == s && [] + [EmitSync] == [EmitSync];
    hide Inv, Continue, R.Rx.Sync;
    assert s.rx.Valid() by { RxOf(s); }
    SyncTakes(s.rx, k);
    ContinueNext(s, [], EmitSync);
    var u := Step(s, EmitSync);
    ContinueNext(s, [EmitSync], DeliverSync(k));
    assert [EmitSync] + [DeliverSync(k)] == [EmitSync, DeliverSync(k)];
    t := Step(u, DeliverSync(k));
  }

  lemma {:induction false} RxOf(s: System)
    requires Inv(s)
    ensures s.rx.Valid() && s.tx.Valid()
  {
  }

  lemma {:induction false} AckBringsUp(s: System, actions: seq<Action>, ack: Ack)
    requires Inv(s)
    requires var t := Continue(s, actions);
      ack == AckNow(t) && t.tx.next == |t.rx.log| && t.tx.size > 0
    ensures Continue(s, actions + [EmitAck(ack)] + [DeliverAck(ack)]).tx.base == Continue(s, actions).tx.next
    ensures Continue(s, actions + [EmitAck(ack)] + [DeliverAck(ack)]).tx.next == Continue(s, actions).tx.next
    ensures Continue(s, actions + [EmitAck(ack)] + [DeliverAck(ack)]).tx.size == Continue(s, actions).tx.size
    ensures Continue(s, actions + [EmitAck(ack)] + [DeliverAck(ack)]).tx.CanSend()
    ensures Continue(s, actions + [EmitAck(ack)] + [DeliverAck(ack)]).rx == Continue(s, actions).rx
  {
    var t := Continue(s, actions);
    ContinueNext(s, actions, EmitAck(ack));
    var u := Continue(s, actions + [EmitAck(ack)]);
    ContinueNext(s, actions + [EmitAck(ack)], DeliverAck(ack));
    AckMeaning(u, ack);
    AckKeepsSent(u.tx, Wire(ack.base), ack.heard, ack.checksum, u.start, u.sent);
  }

  lemma {:induction false} Freed(s: System) returns (actions: seq<Action>)
    requires WindowLost(s) && s.tx.size > Wire(|s.rx.log|)
    ensures NoSegments(actions) && Continue(s, actions).tx.CanSend()
  {
    hide Continue, Step, Enabled, Reports;
    var t := SyncHeeded(s);
    actions := [EmitSync, DeliverSync(s.tx.next)];
    var ack := AckNow(t);
    AckBringsUp(s, actions, ack);
    actions := actions + [EmitAck(ack)] + [DeliverAck(ack)];
  }

  /** When a whole window is lost: the sender is stuck for good exactly when the window is no larger than
      the identifier the receiver expects next. If it is larger, a sync and an acknowledgement free it. */
  lemma {:induction false} StalledExactly(s: System)
    requires WindowLost(s)
    ensures Stalled(s) <==> s.tx.size <= Wire(|s.rx.log|)
  {
    hide Inv, Continue;
    if s.tx.size <= Wire(|s.rx.log|) {
      forall actions | NoSegments(actions)
        ensures !Continue(s, actions).tx.CanSend()
      {
        KeepsLost(s, actions);
      }
    } else {
      var actions := Freed(s);
    }
  }

  // ---- how it comes about ----

  /** A segment which comes in turn is handed over at once. */
  lemma {:induction false} InTurn(rx: R.Rx, segment: R.Segment)
    requires rx.Valid() && rx.pending == [] && rx.size > 0
    ensures rx.Receive(Wire(|rx.log|), segment) == rx.(log := rx.log + [Some(segment)])
  {
    var k := |rx.log|;
    UnwrapAhead(k, k);
    var p := R.Numbered(k, segment);
    assert R.Insert([], p) == [p] && [p][1..] == [];
    assert rx.Deliver(p).Settle([]) == rx.Deliver(p).(pending := []);
    assert rx.log + R.Skips(0) + [Some(segment)] == rx.log + [Some(segment)];
  }

  /** n segments are sent and delivered one after another. */
  lemma {:induction false} SmoothRun(s: System, segment: R.Segment, n: nat) returns (actions: seq<Action>)
    requires Inv(s) && s.rx.pending == [] && s.tx.next == |s.rx.log| && s.tx.next + n <= s.tx.base + s.tx.size
    requires 0 < s.rx.size
    ensures var t := Continue(s, actions);
      && t.rx.pending == [] && t.rx.size == s.rx.size && t.tx.size == s.tx.size
      && t.tx.base == s.tx.base && t.tx.next == |t.rx.log| == s.tx.next + n
    decreases n
  {
    hide SyncsHold, R.Payloads, R.Rx.Receive;
    if n == 0 {
      actions := [];
    } else {
      var front := SmoothRun(s, segment, n - 1);
      var t := Continue(s, front);
      ContinueNext(s, front, Send(segment, 0));
      var u := Continue(s, front + [Send(segment, 0)]);
      assert u == Step(t, Send(segment, 0));
      var k := t.tx.next;
      ContinueNext(s, front + [Send(segment, 0)], DeliverSegment(k));
      InTurn(u.rx, u.sent[k - u.start]);
      actions := front + [Send(segment, 0)] + [DeliverSegment(k)];
    }
  }

  /** n more are sent, and lost. */
  lemma {:induction false} LossyRun(s: System, front: seq<Action>, segment: R.Segment, n: nat)
    returns (actions: seq<Action>)
    requires Inv(s) && Continue(s, front).tx.next + n <= Continue(s, front).tx.base + Continue(s, front).tx.size
    ensures var t, u := Continue(s, front), Continue(s, actions);
      && u.rx == t.rx && u.tx.base == t.tx.base && u.tx.size == t.tx.size && u.tx.next == t.tx.next + n
    decreases n
  {
    if n == 0 {
      actions := front;
    } else {
      var before := LossyRun(s, front, segment, n - 1);
      ContinueNext(s, before, Send(segment, 0));
      actions := before + [Send(segment, 0)];
    }
  }

  /** It does come about, with the windows of an endpoint: once a window of segments has been delivered in
      order and acknowledged, losing the next one stalls the sender for good. */
  lemma {:induction false} StallIsReached(segment: R.Segment, window: u32) returns (actions: seq<Action>)
    requires 0 < window < MAX_AGE
    ensures Inv(Init(0, window, window))
    ensures WindowLost(Continue(Init(0, window, window), actions))
    ensures Stalled(Continue(Init(0, window, window), actions))
  {
    hide Inv, Continue;
    var s := Init(0, window, window);
    InitHolds(0, window, window);
    var smooth := SmoothRun(s, segment, window);
    var ack := AckNow(Continue(s, smooth));
    AckBringsUp(s, smooth, ack);
    actions := LossyRun(s, smooth + [EmitAck(ack)] + [DeliverAck(ack)], segment, window);
    assert Wire(window) == window;
    StalledExactly(Continue(s, actions));
  }
}
