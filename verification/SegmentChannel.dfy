/** The segment layer end to end: a sender, a receiver, and a network which may lose, duplicate,
    reorder and delay segments, acknowledgements and syncs, up to a maximum age. */
module SegmentChannel {
  import opened Words
  import opened Bits
  import opened Fragments
  import T = SegmentTx
  import R = SegmentRx

  /** No frame is delivered once the sender is more than this many identifiers past it. */
  const MAX_AGE: nat := 0x8000_0000

  /** What the receiver says: the base it expects, which of the last five segments it took in, and
      the parity of their nonces. */
  datatype Ack = Ack(base: nat, heard: Word, checksum: bool)

  /** `sent[i]` is the segment of index `start + i`; any of them may still arrive, any number of
      times, and so may any acknowledgement and any sync. */
  datatype System = System(
    start: nat,
    tx: T.Tx,
    rx: R.Rx,
    sent: seq<R.Segment>,
    handed: seq<seq<byte>>,
    acks: set<Ack>,
    syncs: set<nat>)

  datatype Action =
    | Send(segment: R.Segment, bytes: nat)
    | DeliverSegment(k: nat)
    | EmitAck(ack: Ack)
    | DeliverAck(ack: Ack)
    | EmitSync
    | DeliverSync(k: nat)

  /** An acknowledgement as the receiver composes it. */
  ghost predicate Reports(log: seq<Option<R.Segment>>, ack: Ack) {
    && ack.base == |log| && |ack.heard| == 32
    && (forall i :: 0 <= i < 32 ==> ack.heard[i] == (i < R.ACK_BITS && R.Reported(log, i)))
    && ack.checksum == R.LogParity(log, R.ACK_BITS)
  }

  ghost predicate Enabled(s: System, a: Action) {
    match a
    case Send(_, _) => s.tx.CanSend()
    case DeliverSegment(k) => s.start <= k < s.tx.next <= k + MAX_AGE
    case EmitAck(ack) => Reports(s.rx.log, ack)
    case DeliverAck(ack) => ack in s.acks && s.tx.next <= ack.base + MAX_AGE
    case EmitSync => true
    case DeliverSync(k) => k in s.syncs && s.tx.next <= k + MAX_AGE
  }

  ghost function Step(s: System, a: Action): System
    requires s.tx.Valid() && s.rx.Valid() && |s.sent| == s.tx.next - s.start
    requires forall ack :: ack in s.acks ==> |ack.heard| == 32
    requires Enabled(s, a)
  {
    match a
    case Send(segment, bytes) => s.(tx := s.tx.Send(bytes, segment.nonce), sent := s.sent + [segment])
    case DeliverSegment(k) => Received(s, s.rx.Receive(Wire(k), s.sent[k - s.start]))
    case EmitAck(ack) => s.(acks := s.acks + {ack})
    case DeliverAck(ack) => s.(tx := s.tx.Acknowledge(Wire(ack.base), ack.heard, ack.checksum))
    case EmitSync => s.(syncs := s.syncs + {s.tx.next})
    case DeliverSync(k) => Received(s, s.rx.Sync(Wire(k)))
  }

  function Received(s: System, rx: R.Rx): System {
    s.(rx := rx, handed := s.handed + R.Handed(s.rx.log, rx.log))
  }

  /** A fresh connection whose first identifier is the low 32 bits of `start`. */
  function Init(start: nat, txSize: u32, rxSize: u32): System {
    System(start, T.InitTx(start, txSize), R.Rx(R.Skips(start), [], rxSize), [], [], {}, {})
  }

  // ---- what every step keeps ----

  ghost predicate SentHolds(tx: T.Tx, start: nat, sent: seq<R.Segment>) {
    && tx.Valid() && tx.size < LAP && start <= tx.base && |sent| == tx.next - start
    && forall k :: start <= k < tx.next ==> tx.nonces[k] == sent[k - start].nonce
  }

  /** Whatever was taken in or waits is the segment that was sent at its index. */
  ghost predicate RxHolds(rx: R.Rx, start: nat, sent: seq<R.Segment>) {
    && rx.Valid() && start <= |rx.log| <= start + |sent|
    && (forall k :: 0 <= k < start ==> rx.log[k] == None)
    && (forall k :: start <= k < |rx.log| && rx.log[k].Some? ==> rx.log[k].value == sent[k - start])
    && (forall p :: p in rx.pending ==> start <= p.index < start + |sent| && p.segment == sent[p.index - start])
  }

  ghost predicate AcksHold(acks: set<Ack>, start: nat, log: seq<Option<R.Segment>>) {
    forall ack :: ack in acks ==> start <= ack.base <= |log| && Reports(log[..ack.base], ack)
  }

  ghost predicate SyncsHold(syncs: set<nat>, start: nat, next: nat) {
    forall k :: k in syncs ==> start <= k <= next
  }

  ghost predicate Inv(s: System) {
    && SentHolds(s.tx, s.start, s.sent)
    && RxHolds(s.rx, s.start, s.sent)
    && s.rx.size < MAX_AGE
    && s.tx.base <= |s.rx.log|
    && AcksHold(s.acks, s.start, s.rx.log)
    && SyncsHold(s.syncs, s.start, s.tx.next)
    && s.handed == R.Payloads(s.rx.log[s.start..])
  }

  lemma {:induction false} SendKeepsInv(s: System, segment: R.Segment, bytes: nat)
    requires Inv(s) && Enabled(s, Send(segment, bytes))
    ensures Inv(Step(s, Send(segment, bytes)))
  {
  }

  /** An identifier young enough to be delivered is recognized for what it is, or falls outside. */
  lemma {:induction false} WindowTells(base: nat, k: nat, next: nat, size: nat)
    requires base <= next <= k + MAX_AGE && k <= next < base + LAP && size < MAX_AGE
    ensures k >= base ==> Unwrap(base, Wire(k)) == k
    ensures k < base ==> Unwrap(base, Wire(k)) > base + size
  {
    if k >= base {
      UnwrapAhead(base, k);
    } else {
      UnwrapBehind(base, k);
    }
  }

  lemma {:induction false} LongerLogKeepsAcks(acks: set<Ack>, start: nat, log: seq<Option<R.Segment>>,
                                              log': seq<Option<R.Segment>>)
    requires AcksHold(acks, start, log) && log <= log'
    ensures AcksHold(acks, start, log')
  {
    forall ack | ack in acks
      ensures log'[..ack.base] == log[..ack.base]
    {
    }
  }

  lemma {:induction false} HandedAdds(start: nat, log: seq<Option<R.Segment>>, log': seq<Option<R.Segment>>)
    requires start <= |log| && log <= log'
    ensures R.Payloads(log[start..]) + R.Handed(log, log') == R.Payloads(log'[start..])
  {
    assert log'[start..] == log[start..] + log'[|log|..];
    R.PayloadsConcat(log[start..], log'[|log|..]);
  }

  lemma {:induction false} RxGrowthKeepsInv(s: System, rx: R.Rx)
    requires Inv(s) && RxHolds(rx, s.start, s.sent) && rx.size == s.rx.size && s.rx.log <= rx.log
    ensures Inv(Received(s, rx))
  {
    LongerLogKeepsAcks(s.acks, s.start, s.rx.log, rx.log);
    HandedAdds(s.start, s.rx.log, rx.log);
  }

  /** Handing over only own segments keeps the record honest. */
  lemma {:induction false} AccountsKeepsRx(rx: R.Rx, line: seq<R.Numbered>, t: R.Rx, start: nat, sent: seq<R.Segment>)
    requires RxHolds(rx, start, sent) && R.Accounts(rx, line, t) && t.Valid()
    requires forall p :: p in line ==> start <= p.index < start + |sent| && p.segment == sent[p.index - start]
    ensures RxHolds(t, start, sent)
  {
    forall k | start <= k < |t.log| && t.log[k].Some?
      ensures k < start + |sent| && t.log[k].value == sent[k - start]
    {
      if k < |rx.log| {
        assert t.log[k] == rx.log[k];
      } else {
        assert R.Numbered(k, t.log[k].value) in line;
      }
    }
    forall k | 0 <= k < start
      ensures t.log[k] == None
    {
      assert t.log[k] == rx.log[k];
    }
  }

  lemma {:induction false} ReceiveKeepsRx(rx: R.Rx, k: nat, segment: R.Segment, start: nat, sent: seq<R.Segment>)
    requires RxHolds(rx, start, sent) && rx.Takes(Wire(k)) && Unwrap(|rx.log|, Wire(k)) == k
    requires start <= k < start + |sent| && segment == sent[k - start]
    ensures RxHolds(rx.Receive(Wire(k), segment), start, sent)
    ensures rx.log <= rx.Receive(Wire(k), segment).log && rx.Receive(Wire(k), segment).size == rx.size
  {
    R.ReceiveAccounts(rx, Wire(k), segment);
    AccountsKeepsRx(rx, R.Insert(rx.pending, R.Numbered(k, segment)), rx.Receive(Wire(k), segment), start, sent);
  }

  lemma {:induction false} DeliverSegmentKeepsInv(s: System, k: nat)
    requires Inv(s) && Enabled(s, DeliverSegment(k))
    ensures Inv(Step(s, DeliverSegment(k)))
  {
    var rx, segment := s.rx, s.sent[k - s.start];
    WindowTells(|rx.log|, k, s.tx.next, rx.size);
    if rx.Takes(Wire(k)) {
      ReceiveKeepsRx(rx, k, segment, s.start, s.sent);
    }
    RxGrowthKeepsInv(s, rx.Receive(Wire(k), segment));
  }

  lemma {:induction false} SyncKeepsRx(rx: R.Rx, k: nat, start: nat, sent: seq<R.Segment>)
    requires RxHolds(rx, start, sent) && rx.Syncs(Wire(k)) && Unwrap(|rx.log|, Wire(k)) == k <= start + |sent|
    ensures RxHolds(rx.Sync(Wire(k)), start, sent) && rx.log <= rx.Sync(Wire(k)).log
  {
    R.SyncAccounts(rx, Wire(k));
    var t := rx.Sync(Wire(k));
    forall j | start <= j < |t.log| && t.log[j].Some?
      ensures t.log[j].value == sent[j - start]
    {
      if j < |rx.log| {
        assert t.log[j] == rx.log[j];
      } else {
        assert R.Numbered(j, t.log[j].value) in rx.pending;
      }
    }
    forall j | 0 <= j < start
      ensures t.log[j] == None
    {
      assert t.log[j] == rx.log[j];
    }
  }

  lemma {:induction false} DeliverSyncKeepsInv(s: System, k: nat)
    requires Inv(s) && Enabled(s, DeliverSync(k))
    ensures Inv(Step(s, DeliverSync(k)))
  {
    WindowTells(|s.rx.log|, k, s.tx.next, s.rx.size);
    if s.rx.Syncs(Wire(k)) {
      SyncKeepsRx(s.rx, k, s.start, s.sent);
      R.SyncAccounts(s.rx, Wire(k));
    }
    RxGrowthKeepsInv(s, s.rx.Sync(Wire(k)));
  }

  // ---- acknowledgements ----

  /** The receiver's five-bit parity is the sender's parity over its own 32 nonces. */
  lemma {:induction false} HonestParity(nonces: seq<bool>, log: seq<Option<R.Segment>>, ack: Ack, n: nat)
    requires |log| <= |nonces| && n <= 32 && Reports(log, ack)
    requires forall k :: 0 <= k < |log| && log[k].Some? ==> log[k].value.nonce == nonces[k]
    ensures T.HeardParity(nonces, ack.base, ack.heard, n) == R.LogParity(log, if n <= R.ACK_BITS then n else R.ACK_BITS)
    decreases n
  {
    if n > 0 {
      HonestParity(nonces, log, ack, n - 1);
    }
  }

  lemma {:induction false} LoggedNonces(s: System, base: nat)
    requires Inv(s) && base <= |s.rx.log|
    ensures var log := s.rx.log[..base];
      forall k :: 0 <= k < |log| && log[k].Some? ==> log[k].value.nonce == s.tx.nonces[k]
  {
  }

  /** Every acknowledgement the receiver sent passes the nonce check when it is accepted, and it is
      accepted exactly when the sender has not moved on past it. */
  lemma {:induction false} AckMeaning(s: System, ack: Ack)
    requires Inv(s) && Enabled(s, DeliverAck(ack))
    ensures s.tx.Accepts(Wire(ack.base)) <==> s.tx.base <= ack.base
    ensures s.tx.Accepts(Wire(ack.base)) ==>
      Unwrap(s.tx.base, Wire(ack.base)) == ack.base && s.tx.Trusts(Wire(ack.base), ack.heard, ack.checksum)
  {
    if s.tx.base <= ack.base {
      UnwrapAhead(s.tx.base, ack.base);
      LoggedNonces(s, ack.base);
      HonestParity(s.tx.nonces, s.rx.log[..ack.base], ack, |ack.heard|);
    } else {
      UnwrapBehind(s.tx.base, ack.base);
    }
  }

  lemma {:induction false} AckKeepsSent(tx: T.Tx, id: u32, heard: Word, checksum: bool, start: nat,
                                        sent: seq<R.Segment>)
    requires SentHolds(tx, start, sent) && |heard| == 32
    ensures SentHolds(tx.Acknowledge(id, heard, checksum), start, sent)
    ensures tx.Acknowledge(id, heard, checksum).next == tx.next
    ensures tx.Acknowledge(id, heard, checksum).base == if tx.Accepts(id) then Unwrap(tx.base, id) else tx.base
  {
  }

  lemma {:induction false} DeliverAckKeepsInv(s: System, ack: Ack)
    requires Inv(s) && Enabled(s, DeliverAck(ack))
    ensures Inv(Step(s, DeliverAck(ack)))
  {
    AckMeaning(s, ack);
    AckKeepsSent(s.tx, Wire(ack.base), ack.heard, ack.checksum, s.start, s.sent);
  }

  lemma {:induction false} StepKeepsInv(s: System, a: Action)
    requires Inv(s) && Enabled(s, a)
    ensures Inv(Step(s, a))
  {
    match a
    case Send(segment, bytes) => SendKeepsInv(s, segment, bytes);
    case DeliverSegment(k) => DeliverSegmentKeepsInv(s, k);
    case EmitAck(ack) =>
      assert s.rx.log[..ack.base] == s.rx.log;
    case DeliverAck(ack) => DeliverAckKeepsInv(s, ack);
    case EmitSync =>
    case DeliverSync(k) => DeliverSyncKeepsInv(s, k);
  }

  // ---- runs ----

  /** The state after a run; an action which is not enabled changes nothing. */
  ghost function After(start: nat, txSize: u32, rxSize: u32, actions: seq<Action>): (s: System)
    requires rxSize < MAX_AGE
    ensures Inv(s) && s.start == start
    decreases |actions|
  {
    if actions == [] then
      InitHolds(start, txSize, rxSize);
      Init(start, txSize, rxSize)
    else
      var s := After(start, txSize, rxSize, actions[..|actions| - 1]);
      var a := actions[|actions| - 1];
      if Enabled(s, a) then StepKeepsInv(s, a); Step(s, a) else s
  }

  lemma {:induction false} InitHolds(start: nat, txSize: u32, rxSize: u32)
    requires rxSize < MAX_AGE
    ensures Inv(Init(start, txSize, rxSize))
  {
    assert R.Skips(start)[start..] == [];
  }

  /** In every run, whatever acknowledgement of the receiver reaches the sender, the sender's parity
      over its own nonces equals the receiver's: the mismatch branch is never taken. */
  lemma {:induction false} HonestAcksTrusted(start: nat, txSize: u32, rxSize: u32, actions: seq<Action>, ack: Ack)
    requires rxSize < MAX_AGE
    requires Enabled(After(start, txSize, rxSize, actions), DeliverAck(ack))
    ensures var tx := After(start, txSize, rxSize, actions).tx;
      && (tx.Accepts(Wire(ack.base)) <==> tx.base <= ack.base)
      && (tx.Accepts(Wire(ack.base)) ==> tx.Trusts(Wire(ack.base), ack.heard, ack.checksum))
  {
    AckMeaning(After(start, txSize, rxSize, actions), ack);
  }

  /** In every run, what was handed over are segments that were sent, each with its own data and at
      most once, in the order they were sent; and the sender has given up accounting only for
      segments the receiver has settled. */
  lemma {:induction false} SegmentsInOrderOnce(start: nat, txSize: u32, rxSize: u32, actions: seq<Action>)
    requires rxSize < MAX_AGE
    ensures var s := After(start, txSize, rxSize, actions);
      && start <= s.tx.base <= |s.rx.log| <= s.tx.next == start + |s.sent|
      && s.handed == R.Payloads(s.rx.log[start..])
      && forall k :: start <= k < |s.rx.log| ==> s.rx.log[k] in {None, Some(s.sent[k - start])}
  {
  }

  lemma {:induction false} WaitingOf(rx: R.Rx, start: nat, sent: seq<R.Segment>, i: nat)
    requires RxHolds(rx, start, sent) && rx.size < LAP && i < |rx.pending|
    ensures var p := rx.pending[i];
      && |rx.log| < p.index < start + |sent| && p.segment == sent[p.index - start]
      && (i > 0 ==> rx.pending[i - 1].index < p.index)
  {
    R.SlotsDiffer(rx, |rx.log|);
    assert rx.pending[i] in rx.pending;
  }

  /** In every run, what waits in the buffer was sent, is not yet settled, and is in order. */
  lemma {:induction false} WaitingSegments(start: nat, txSize: u32, rxSize: u32, actions: seq<Action>, i: nat)
    requires rxSize < MAX_AGE && i < |After(start, txSize, rxSize, actions).rx.pending|
    ensures var s := After(start, txSize, rxSize, actions);
      var p := s.rx.pending[i];
      && |s.rx.log| < p.index < s.tx.next && p.segment == s.sent[p.index - start]
      && (i > 0 ==> s.rx.pending[i - 1].index < p.index)
  {
    var s := After(start, txSize, rxSize, actions);
    WaitingOf(s.rx, start, s.sent, i);
  }
}
