/** The receiving side of the segment layer: two slots hold segments that came early, and shift
    registers record which of the last 32 segments were taken in, and with which nonces. */
module SegmentRx {
  import opened Words
  import opened Bits
  import opened Fragments

  // ---- the receiver, in unbounded indices ----

  datatype Segment = Segment(nonce: bool, data: seq<byte>)

  datatype Numbered = Numbered(index: nat, segment: Segment)

  /** In strictly increasing order within [lo, hi). */
  predicate Sorted(line: seq<Numbered>, lo: nat, hi: nat)
    decreases |line|
  {
    line == [] || (lo <= line[0].index < hi && Sorted(line[1..], line[0].index + 1, hi))
  }

  predicate Has(line: seq<Numbered>, k: nat)
    decreases |line|
  {
    line != [] && (line[0].index == k || Has(line[1..], k))
  }

  /** Inserts by index. */
  function Insert(line: seq<Numbered>, p: Numbered): seq<Numbered>
    decreases |line|
  {
    if line == [] || p.index < line[0].index then [p] + line else [line[0]] + Insert(line[1..], p)
  }

  lemma {:induction false} SortedLater(line: seq<Numbered>, lo: nat, hi: nat, hi': nat)
    requires Sorted(line, lo, hi) && hi <= hi'
    ensures Sorted(line, lo, hi')
    decreases |line|
  {
    if line != [] {
      SortedLater(line[1..], line[0].index + 1, hi, hi');
    }
  }

  lemma {:induction false} InsertSorted(line: seq<Numbered>, lo: nat, hi: nat, p: Numbered)
    requires Sorted(line, lo, hi) && lo <= p.index < hi && !Has(line, p.index)
    ensures Sorted(Insert(line, p), lo, hi) && |Insert(line, p)| == |line| + 1
    decreases |line|
  {
    if line == [] || p.index < line[0].index {
      assert ([p] + line)[1..] == line;
      SortedFrom(line, lo, p.index + 1, hi);
    } else {
      InsertSorted(line[1..], line[0].index + 1, hi, p);
      assert Insert(line, p)[1..] == Insert(line[1..], p);
    }
  }

  lemma {:induction false} SortedFrom(line: seq<Numbered>, lo: nat, lo': nat, hi: nat)
    requires Sorted(line, lo, hi) && (line != [] ==> lo' <= line[0].index)
    ensures Sorted(line, lo', hi)
  {
  }

  function Skips(n: nat): (r: seq<Option<Segment>>)
    ensures |r| == n && forall i :: 0 <= i < n ==> r[i] == None
  {
    seq(n, _ => None)
  }

  /** `log[k]` is the segment taken in at index k, or None if k was given up on; every index before
      `|log|` is settled. `pending` are the segments that came early. */
  datatype Rx = Rx(log: seq<Option<Segment>>, pending: seq<Numbered>, size: u32) {
    predicate Valid() {
      Sorted(pending, |log| + 1, |log| + size) && |pending| <= 2
    }

    function Deliver(p: Numbered): Rx
      requires p.index >= |log|
    {
      this.(log := log + Skips(p.index - |log|) + [Some(p.segment)])
    }

    function Pop(): Rx
      requires pending != [] && pending[0].index >= |log|
    {
      Deliver(pending[0]).(pending := pending[1..])
    }

    /** While the line is overfull or its head is the next segment, the head is delivered. */
    function Settle(line: seq<Numbered>): Rx
      requires Sorted(line, |log|, |log| + size)
      decreases |line|
    {
      if line != [] && (line[0].index == |log| || |line| > 2) then
        SortedLater(line[1..], line[0].index + 1, |log| + size, line[0].index + 1 + size);
        Deliver(line[0]).Settle(line[1..])
      else this.(pending := line)
    }

    /** What arrives outside the window or a second time is ignored. */
    predicate Takes(id: u32) {
      Unwrap(|log|, id) < |log| + size && !Has(pending, Unwrap(|log|, id))
    }

    function Receive(id: u32, segment: Segment): Rx
      requires Valid()
    {
      if Takes(id) then
        var p := Numbered(Unwrap(|log|, id), segment);
        SortedFrom(pending, |log| + 1, |log|, |log| + size);
        InsertSorted(pending, |log|, |log| + size, p);
        Settle(Insert(pending, p))
      else this
    }

    function DeliverAll(line: seq<Numbered>): Rx
      requires Sorted(line, |log|, |log| + size)
      decreases |line|
    {
      if line == [] then this.(pending := [])
      else
        SortedLater(line[1..], line[0].index + 1, |log| + size, line[0].index + 1 + size);
        Deliver(line[0]).DeliverAll(line[1..])
    }

    /** The distance a sync must exceed: that of the last segment waiting. With nothing waiting it
        is the identifier expected next, not zero. */
    function MinDelta(): int
    {
      if pending == [] then Wire(|log|) else pending[|pending| - 1].index - |log|
    }

    predicate Syncs(id: u32) {
      MinDelta() < Unwrap(|log|, id) - |log| <= size
    }

    /** Everything waiting is delivered, and the rest up to the new base is given up on. */
    function Sync(id: u32): Rx
      requires Valid()
    {
      if Syncs(id) then
        SortedFrom(pending, |log| + 1, |log|, |log| + size);
        DeliverAll(pending).SkipTo(Unwrap(|log|, id))
      else this
    }

    function SkipTo(k: nat): Rx {
      if k >= |log| then this.(log := log + Skips(k - |log|)) else this
    }
  }

  /** The data of the segments taken in, in order. */
  function Payloads(entries: seq<Option<Segment>>): seq<seq<byte>>
    decreases |entries|
  {
    if entries == [] then []
    else
      var last := entries[|entries| - 1];
      Payloads(entries[..|entries| - 1]) + if last.Some? then [last.value.data] else []
  }

  lemma {:induction false} PayloadsConcat(a: seq<Option<Segment>>, b: seq<Option<Segment>>)
    ensures Payloads(a + b) == Payloads(a) + Payloads(b)
    decreases |b|
  {
    if b == [] {
      assert a + b == a;
    } else {
      PayloadsConcat(a, b[..|b| - 1]);
      assert (a + b)[..|a + b| - 1] == a + b[..|b| - 1];
    }
  }

  lemma {:induction false} PayloadsOfSkips(n: nat)
    ensures Payloads(Skips(n)) == []
    decreases n
  {
    if n > 0 {
      PayloadsOfSkips(n - 1);
      assert Skips(n)[..n - 1] == Skips(n - 1);
    }
  }

  /** What a call hands over on the way from one log to a longer one. */
  function Handed(before: seq<Option<Segment>>, after: seq<Option<Segment>>): seq<seq<byte>> {
    if before <= after then Payloads(after[|before|..]) else []
  }

  lemma {:induction false} PayloadsOfOne(segment: Segment)
    ensures Payloads([Some(segment)]) == [segment.data]
  {
    assert [Some(segment)][..0] == [];
  }

  lemma {:induction false} HandedNext(log: seq<Option<Segment>>, rx: Rx, p: Numbered)
    requires log <= rx.log && p.index >= |rx.log|
    ensures log <= rx.Deliver(p).log
    ensures Handed(log, rx.Deliver(p).log) == Handed(log, rx.log) + [p.segment.data]
  {
    hide Payloads, Skips;
    var skips, entry := Skips(p.index - |rx.log|), [Some(p.segment)];
    assert rx.Deliver(p).log[|log|..] == rx.log[|log|..] + skips + entry;
    PayloadsConcat(rx.log[|log|..] + skips, entry);
    PayloadsConcat(rx.log[|log|..], skips);
    PayloadsOfSkips(|skips|);
    PayloadsOfOne(p.segment);
  }

  lemma {:induction false} HandedNothing(log: seq<Option<Segment>>, rx: Rx, k: nat)
    requires log <= rx.log
    ensures log <= rx.SkipTo(k).log && Handed(log, rx.SkipTo(k).log) == Handed(log, rx.log)
  {
    if k >= |rx.log| {
      var skips := Skips(k - |rx.log|);
      assert rx.SkipTo(k).log[|log|..] == rx.log[|log|..] + skips;
      PayloadsConcat(rx.log[|log|..], skips);
      PayloadsOfSkips(|skips|);
    }
  }

  // ---- the last 32 segments ----

  /** Whether the segment i + 1 places behind the base was taken in, and its nonce. */
  predicate Reported(log: seq<Option<Segment>>, i: nat) {
    i < |log| && log[|log| - 1 - i].Some?
  }

  predicate ReportedNonce(log: seq<Option<Segment>>, i: nat) {
    Reported(log, i) && log[|log| - 1 - i].value.nonce
  }

  ghost predicate HistoriesHold(rxHistory: Word, nonceHistory: Word, log: seq<Option<Segment>>) {
    && |rxHistory| == |nonceHistory| == 32
    && (forall i :: 0 <= i < 32 ==> rxHistory[i] == Reported(log, i))
    && (forall i :: 0 <= i < 32 ==> nonceHistory[i] == ReportedNonce(log, i))
  }

  /** `history << 1 | bit` */
  function PushBit(history: Word, bit: bool): (r: Word)
    requires |history| == 32
    ensures |r| == 32 && r[0] == bit && forall i :: 1 <= i < 32 ==> r[i] == history[i - 1]
  {
    Or(Shl(history, 1), if bit then OneBit(32, 0) else Zero(32))
  }

  function PushZeros(history: Word, count: nat): (r: Word)
    requires |history| == 32
    ensures |r| == 32 && forall i :: 0 <= i < 32 ==> r[i] == (i >= count && history[i - count])
  {
    if count < 32 then Shl(history, count) else Zero(32)
  }

  lemma {:induction false} ReportedAfterAck(log: seq<Option<Segment>>, segment: Segment, i: nat)
    ensures Reported(log + [Some(segment)], i) == (i == 0 || Reported(log, i - 1))
    ensures ReportedNonce(log + [Some(segment)], i) == if i == 0 then segment.nonce else ReportedNonce(log, i - 1)
  {
  }

  lemma {:induction false} AckPushed(rxHistory: Word, nonceHistory: Word, log: seq<Option<Segment>>, segment: Segment)
    requires HistoriesHold(rxHistory, nonceHistory, log)
    ensures HistoriesHold(PushBit(rxHistory, true), PushBit(nonceHistory, segment.nonce), log + [Some(segment)])
  {
    var heard, nonces := PushBit(rxHistory, true), PushBit(nonceHistory, segment.nonce);
    forall i | 0 <= i < 32
      ensures heard[i] == Reported(log + [Some(segment)], i) && nonces[i] == ReportedNonce(log + [Some(segment)], i)
    {
      ReportedAfterAck(log, segment, i);
    }
  }

  lemma {:induction false} SkipsPushed(rxHistory: Word, nonceHistory: Word, log: seq<Option<Segment>>, count: nat)
    requires HistoriesHold(rxHistory, nonceHistory, log)
    ensures HistoriesHold(PushZeros(rxHistory, count), PushZeros(nonceHistory, count), log + Skips(count))
  {
    var longer := log + Skips(count);
    forall i | 0 <= i < 32
      ensures Reported(longer, i) == (i >= count && Reported(log, i - count))
      ensures ReportedNonce(longer, i) == (i >= count && ReportedNonce(log, i - count))
    {
    }
  }

  /** How many of the last segments an acknowledgement reports. */
  const ACK_BITS: nat := 5

  /** Parity of the nonces of those among the n last segments that were taken in. */
  predicate LogParity(log: seq<Option<Segment>>, n: nat)
    decreases n
  {
    n > 0 && ReportedNonce(log, n - 1) != LogParity(log, n - 1)
  }

  /** What an acknowledgement says about the last five segments. */
  ghost predicate AckInfo(log: seq<Option<Segment>>, history: Word, checksum: bool) {
    && |history| == 8 && checksum == LogParity(log, ACK_BITS)
    && forall i :: 0 <= i < 8 ==> history[i] == (i < ACK_BITS && Reported(log, i))
  }

  // ---- how receiving settles ----

  lemma {:induction false} HasIsMember(line: seq<Numbered>, lo: nat, hi: nat, k: nat)
    requires Sorted(line, lo, hi)
    ensures Has(line, k) ==> lo <= k < hi
    decreases |line|
  {
    if line != [] {
      HasIsMember(line[1..], line[0].index + 1, hi, k);
    }
  }

  /** With two or fewer waiting and a gap before them nothing moves. */
  lemma {:induction false} SettleNothing(rx: Rx)
    requires Sorted(rx.pending, |rx.log|, |rx.log| + rx.size) && |rx.pending| <= 2
    requires rx.pending != [] ==> rx.pending[0].index != |rx.log|
    ensures rx.Settle(rx.pending) == rx && rx.Valid()
  {
  }

  lemma {:induction false} SettleNext(rx: Rx, line: seq<Numbered>)
    requires Sorted(line, |rx.log|, |rx.log| + rx.size) && line != []
    requires line[0].index == |rx.log| || |line| > 2
    ensures Sorted(line[1..], line[0].index + 1, line[0].index + 1 + rx.size)
    ensures rx.Settle(line) == rx.Deliver(line[0]).Settle(line[1..])
  {
    SortedLater(line[1..], line[0].index + 1, |rx.log| + rx.size, line[0].index + 1 + rx.size);
  }

  lemma {:induction false} SettleFrom(rx: Rx, line: seq<Numbered>)
    requires Sorted(line, |rx.log|, |rx.log| + rx.size)
    ensures forall pending :: rx.(pending := pending).Settle(line) == rx.Settle(line)
    decreases |line|
  {
    if line != [] && (line[0].index == |rx.log| || |line| > 2) {
      SettleNext(rx, line);
      SettleFrom(rx.Deliver(line[0]), line[1..]);
      forall pending
        ensures rx.(pending := pending).Settle(line) == rx.Settle(line)
      {
        assert rx.(pending := pending).Deliver(line[0]) == rx.Deliver(line[0]).(pending := pending);
      }
    }
  }

  /** Delivering the head is one step of settling. */
  lemma {:induction false} PopSettles(rx: Rx)
    requires Sorted(rx.pending, |rx.log|, |rx.log| + rx.size) && rx.pending != []
    requires rx.pending[0].index == |rx.log|
    ensures var after := rx.Pop();
      && Sorted(after.pending, |after.log|, |after.log| + after.size)
      && rx.Settle(rx.pending) == after.Settle(after.pending)
  {
    SettleNext(rx, rx.pending);
    assert |rx.Deliver(rx.pending[0]).log| == rx.pending[0].index + 1;
    SettleFrom(rx.Deliver(rx.pending[0]), rx.pending[1..]);
  }

  /** An arriving segment goes first when it is the next one, or when two others wait behind it. */
  lemma {:induction false} ReceiveFirst(rx: Rx, id: u32, p: Numbered)
    requires rx.Valid() && rx.Takes(id) && p.index == Unwrap(|rx.log|, id)
    requires p.index == |rx.log| || (|rx.pending| == 2 && p.index < rx.pending[0].index)
    ensures var after := rx.Deliver(p);
      && Sorted(after.pending, |after.log|, |after.log| + after.size)
      && rx.Receive(id, p.segment) == after.Settle(after.pending)
  {
    SortedFrom(rx.pending, |rx.log| + 1, |rx.log|, |rx.log| + rx.size);
    InsertSorted(rx.pending, |rx.log|, |rx.log| + rx.size, p);
    assert Insert(rx.pending, p) == [p] + rx.pending;
    assert ([p] + rx.pending)[1..] == rx.pending;
    SettleNext(rx, [p] + rx.pending);
  }

  /** With room in the buffer an early segment waits. */
  lemma {:induction false} ReceiveWaits(rx: Rx, id: u32, p: Numbered)
    requires rx.Valid() && rx.Takes(id) && p.index == Unwrap(|rx.log|, id)
    requires p.index != |rx.log| && |rx.pending| < 2
    ensures rx.Receive(id, p.segment) == rx.(pending := Insert(rx.pending, p))
    ensures rx.(pending := Insert(rx.pending, p)).Valid()
  {
    InsertSorted(rx.pending, |rx.log| + 1, |rx.log| + rx.size, p);
    SortedFrom(Insert(rx.pending, p), |rx.log| + 1, |rx.log|, |rx.log| + rx.size);
  }

  /** With the buffer full its head gives way. */
  lemma {:induction false} ReceiveFull(rx: Rx, id: u32, p: Numbered)
    requires rx.Valid() && rx.Takes(id) && p.index == Unwrap(|rx.log|, id)
    requires |rx.pending| == 2 && p.index > rx.pending[0].index
    ensures var after := rx.Pop().(pending := Insert(rx.pending[1..], p));
      && Sorted(after.pending, |after.log|, |after.log| + after.size)
      && rx.Receive(id, p.segment) == after.Settle(after.pending)
  {
    SortedFrom(rx.pending, |rx.log| + 1, |rx.log|, |rx.log| + rx.size);
    InsertSorted(rx.pending, |rx.log|, |rx.log| + rx.size, p);
    var line := Insert(rx.pending, p);
    assert line[0] == rx.pending[0] && line[1..] == Insert(rx.pending[1..], p);
    SettleNext(rx, line);
    SettleFrom(rx.Deliver(line[0]), line[1..]);
  }

  datatype Slot = Slot(id: u32, nonce: bool, data: seq<byte>)

  predicate SlotHolds(slot: Slot, p: Numbered) {
    slot == Slot(Wire(p.index), p.segment.nonce, p.segment.data)
  }

  ghost predicate SlotsHold(slot0: Slot, slot1: Slot, len: nat, pending: seq<Numbered>) {
    && len == |pending| <= 2
    && (len > 0 ==> SlotHolds(slot0, pending[0]))
    && (len > 1 ==> SlotHolds(slot1, pending[1]))
  }

  class SegmentRx {
    var window: Window
    var slot0: Slot
    var slot1: Slot
    var len: nat
    var rxHistory: Word
    var nonceHistory: Word

    ghost var model: Rx

    /** All but the slots. */
    ghost predicate Front()
      reads this
    {
      && window == Window(Wire(|model.log|), model.size)
      && HistoriesHold(rxHistory, nonceHistory, model.log)
    }

    ghost predicate Valid()
      reads this
    {
      Front() && SlotsHold(slot0, slot1, len, model.pending) && model.Valid()
    }

    constructor (windowBaseId: u32, windowSize: u32)
      ensures Valid() && model == Rx(Skips(windowBaseId), [], windowSize)
    {
      window := Window(windowBaseId, windowSize);
      slot0 := Slot(0, false, []);
      slot1 := Slot(0, false, []);
      len := 0;
      rxHistory := Zero(32);
      nonceHistory := Zero(32);
      model := Rx(Skips(windowBaseId), [], windowSize);
    }

    method SwapSlotsIfBackward()
      requires len == 2
      modifies `slot0, `slot1
      ensures if WrapSub(old(slot0).id, window.baseId) > WrapSub(old(slot1).id, window.baseId)
              then slot0 == old(slot1) && slot1 == old(slot0) else slot0 == old(slot0) && slot1 == old(slot1)
    {
      var slot0Delta := WrapSub(slot0.id, window.baseId);
      var slot1Delta := WrapSub(slot1.id, window.baseId);
      if slot0Delta > slot1Delta {
        slot0, slot1 := slot1, slot0;
      }
    }

    method PushHistoryAck(nonce: bool, ghost log: seq<Option<Segment>>, ghost segment: Segment)
      requires HistoriesHold(rxHistory, nonceHistory, log) && nonce == segment.nonce
      modifies `rxHistory, `nonceHistory
      ensures HistoriesHold(rxHistory, nonceHistory, log + [Some(segment)])
    {
      AckPushed(rxHistory, nonceHistory, log, segment);
      rxHistory := PushBit(rxHistory, true);
      nonceHistory := PushBit(nonceHistory, nonce);
    }

    method PushHistorySkips(count: u32, ghost log: seq<Option<Segment>>)
      requires HistoriesHold(rxHistory, nonceHistory, log)
      modifies `rxHistory, `nonceHistory
      ensures HistoriesHold(rxHistory, nonceHistory, log + Skips(count))
    {
      SkipsPushed(rxHistory, nonceHistory, log, count);
      rxHistory := PushZeros(rxHistory, count);
      nonceHistory := PushZeros(nonceHistory, count);
    }

    /** Records that the segment `delta` places past the base was handed over and those before it
        were given up on, and moves the window past it. */
    method AdvancePast(id: u32, nonce: bool, delta: u32, ghost p: Numbered)
      requires Front() && p.index == |model.log| + delta && id == Wire(p.index) && nonce == p.segment.nonce
      modifies `window, `rxHistory, `nonceHistory, `model
      ensures Front() && model == old(model).Deliver(p)
    {
      ghost var log := model.log;
      PushHistorySkips(delta, log);
      PushHistoryAck(nonce, log + Skips(delta), p.segment);
      WireNext(p.index);
      window := window.(baseId := WrapAdd(id, 1));
      model := model.Deliver(p);
    }

    /** Hands over the first slot, `delta` places past the base. */
    method DeliverSlot0(delta: u32, handed: seq<seq<byte>>, ghost log: seq<Option<Segment>>)
      returns (out: seq<seq<byte>>)
      requires Front() && SlotsHold(slot0, slot1, len, model.pending) && len > 0
      requires model.pending[0].index == |model.log| + delta
      requires log <= model.log && handed == Handed(log, model.log)
      modifies this
      ensures Front() && SlotsHold(slot0, slot1, len, model.pending)
      ensures model == old(model).Pop()
      ensures len == old(len) - 1
      ensures log <= model.log && out == Handed(log, model.log)
    {
      ghost var p, rest := model.pending[0], model.pending[1..];
      HandedNext(log, model, p);
      out := handed + [slot0.data];
      AdvancePast(slot0.id, slot0.nonce, delta, p);
      if len == 2 {
        slot0, slot1 := slot1, slot0;
      }
      len := len - 1;
      model := model.(pending := rest);
    }

    /** On the way to `settled`, with `out` handed over since `log`. */
    ghost predicate Draining(log: seq<Option<Segment>>, out: seq<seq<byte>>, settled: Rx)
      reads this
    {
      && Front() && SlotsHold(slot0, slot1, len, model.pending)
      && Sorted(model.pending, |model.log|, |model.log| + model.size)
      && model.Settle(model.pending) == settled
      && log <= model.log && out == Handed(log, model.log)
    }

    method DrainOne(handed: seq<seq<byte>>, ghost log: seq<Option<Segment>>, ghost settled: Rx)
      returns (out: seq<seq<byte>>)
      requires Draining(log, handed, settled) && len > 0 && model.pending[0].index == |model.log|
      modifies this
      ensures Draining(log, out, settled) && len == old(len) - 1
    {
      PopSettles(model);
      out := DeliverSlot0(0, handed, log);
    }

    /** Hands over everything in the buffer which matches the next expected identifier. */
    method Drain(handed: seq<seq<byte>>, ghost log: seq<Option<Segment>>) returns (out: seq<seq<byte>>)
      requires Sorted(model.pending, |model.log|, |model.log| + model.size)
      requires Draining(log, handed, model.Settle(model.pending))
      modifies this
      ensures Valid() && model == old(model).Settle(old(model).pending)
      ensures log <= model.log && out == Handed(log, model.log)
    {
      out := handed;
      ghost var settled := model.Settle(model.pending);
      while len > 0 && slot0.id == window.baseId
        invariant Draining(log, out, settled)
        decreases len
      {
        WireDistance(|model.log|, model.pending[0].index);
        out := DrainOne(out, log, settled);
      }
      if len > 0 {
        WireDistance(|model.log|, model.pending[0].index);
      }
      SettleNothing(model);
    }

    /** Puts the two slots in order, one of them holding the segment just saved. */
    method FileInOrder(ghost q: Numbered, ghost p: Numbered)
      requires Front() && len == 2 && q.index != p.index
      requires (SlotHolds(slot0, q) && SlotHolds(slot1, p)) || (SlotHolds(slot0, p) && SlotHolds(slot1, q))
      requires |model.log| <= p.index < |model.log| + model.size && |model.log| <= q.index < |model.log| + model.size
      modifies `slot0, `slot1, `model
      ensures Front() && SlotsHold(slot0, slot1, len, model.pending)
      ensures model == old(model).(pending := Insert([q], p))
    {
      WireDistance(|model.log|, p.index);
      WireDistance(|model.log|, q.index);
      SwapSlotsIfBackward();
      InsertIntoOne(q, p);
      model := model.(pending := Insert([q], p));
    }

    /** Hands over a segment on arrival, giving up on those before it. */
    method DeliverNew(newId: u32, newNonce: bool, newData: seq<byte>, delta: u32, ghost p: Numbered)
      returns (out: seq<seq<byte>>)
      requires Valid() && model.Takes(newId) && delta == p.index - |model.log|
      requires p == Numbered(Unwrap(|model.log|, newId), Segment(newNonce, newData)) && newId == Wire(p.index)
      requires p.index == |model.log| || (|model.pending| == 2 && p.index < model.pending[0].index)
      modifies this
      ensures Draining(old(model).log, out, old(model).Receive(newId, p.segment))
    {
      ReceiveFirst(model, newId, p);
      HandedNext(model.log, model, p);
      out := [newData];
      AdvancePast(newId, newNonce, delta, p);
    }

    /** With both slots taken, the first gives way to a new segment which comes after it. */
    method Replace(newId: u32, newNonce: bool, newData: seq<byte>, slot0Delta: u32, ghost p: Numbered)
      returns (out: seq<seq<byte>>)
      requires Valid() && len == 2 && model.Takes(newId) && slot0Delta == model.pending[0].index - |model.log|
      requires p == Numbered(Unwrap(|model.log|, newId), Segment(newNonce, newData)) && newId == Wire(p.index)
      requires model.pending[0].index < p.index
      modifies this
      ensures Draining(old(model).log, out, old(model).Receive(newId, p.segment))
    {
      ghost var rx := model;
      SlotsDiffer(rx, p.index);
      ReceiveFull(rx, newId, p);
      HandedNext(rx.log, rx, rx.pending[0]);
      out := [slot0.data];
      AdvancePast(slot0.id, slot0.nonce, slot0Delta, rx.pending[0]);
      slot0 := Slot(newId, newNonce, newData);
      assert rx.pending[1..] == [rx.pending[1]];
      FileInOrder(rx.pending[1], p);
    }

    /** With both slots taken, the first of the three segments goes. */
    method Squeeze(newId: u32, newNonce: bool, newData: seq<byte>, ghost p: Numbered) returns (out: seq<seq<byte>>)
      requires Valid() && len == 2 && model.Takes(newId) && newId == Wire(p.index) && p.index != |model.log|
      requires p == Numbered(Unwrap(|model.log|, newId), Segment(newNonce, newData))
      modifies this
      ensures Draining(old(model).log, out, old(model).Receive(newId, p.segment))
    {
      SlotsDiffer(model, p.index);
      var newDelta := WrapSub(newId, window.baseId);
      var slot0Delta := WrapSub(slot0.id, window.baseId);
      if newDelta < slot0Delta {
        out := DeliverNew(newId, newNonce, newData, newDelta, p);
      } else {
        out := Replace(newId, newNonce, newData, slot0Delta, p);
      }
    }

    /** With room in the buffer, an early segment waits there. */
    method Wait(newId: u32, newNonce: bool, newData: seq<byte>, ghost p: Numbered)
      requires Valid() && len < 2 && model.Takes(newId) && newId == Wire(p.index)
      requires p == Numbered(Unwrap(|model.log|, newId), Segment(newNonce, newData)) && p.index != |model.log|
      modifies this
      ensures Valid() && model == old(model).Receive(newId, p.segment) && model.log == old(model).log
    {
      ghost var rx := model;
      SlotsDiffer(rx, p.index);
      ReceiveWaits(rx, newId, p);
      if len == 0 {
        slot0 := Slot(newId, newNonce, newData);
        len := 1;
        model := rx.(pending := Insert(rx.pending, p));
      } else {
        slot1 := Slot(newId, newNonce, newData);
        len := 2;
        FileInOrder(rx.pending[0], p);
      }
    }

    /** Takes in a segment; `out` is what it hands over, and `left` how many segments still wait. */
    method Receive(newId: u32, newNonce: bool, newData: seq<byte>) returns (out: seq<seq<byte>>, left: nat)
      requires Valid()
      modifies this
      ensures Valid() && model == old(model).Receive(newId, Segment(newNonce, newData))
      ensures old(model).log <= model.log && out == Handed(old(model).log, model.log)
      ensures left == |model.pending|
    {
      ghost var rx := model;
      ghost var p := Numbered(Unwrap(|rx.log|, newId), Segment(newNonce, newData));
      UnwrapWire(|rx.log|, newId);
      SlotsDiffer(rx, p.index);
      out := [];

      if window.Contains(newId) {
        if newId == window.baseId {
          // This segment is expected next.
          out := DeliverNew(newId, newNonce, newData, 0, p);
        } else if len == 0 {
          Wait(newId, newNonce, newData, p);
          return out, len;
        } else if len == 1 {
          if slot0.id != newId {
            Wait(newId, newNonce, newData, p);
          }
          return out, len;
        } else if slot0.id != newId && slot1.id != newId {
          out := Squeeze(newId, newNonce, newData, p);
        } else {
          SettleNothing(rx);
        }
        out := Drain(out, rx.log);
      }
      left := len;
    }

    /** Hands over everything in the buffer. */
    method DeliverBuffered() returns (out: seq<seq<byte>>)
      requires Valid() && Sorted(model.pending, |model.log|, |model.log| + model.size)
      modifies this
      ensures Front() && len == 0 && model == old(model).DeliverAll(old(model).pending)
      ensures old(model).log <= model.log && out == Handed(old(model).log, model.log)
    {
      ghost var rx := model;
      DeliverAllCases(rx);
      SlotsDiffer(rx, |rx.log|);
      out := [];
      if len > 0 {
        HandedNext(rx.log, rx, rx.pending[0]);
        out := out + [slot0.data];
        AdvancePast(slot0.id, slot0.nonce, WrapSub(slot0.id, window.baseId), rx.pending[0]);
        if len == 2 {
          WireDistance(|model.log|, rx.pending[1].index);
          HandedNext(rx.log, model, rx.pending[1]);
          out := out + [slot1.data];
          AdvancePast(slot1.id, slot1.nonce, WrapSub(slot1.id, window.baseId), rx.pending[1]);
        }
      }
      len := 0;
      model := model.(pending := []);
    }

    method MinDelta() returns (minDelta: u32)
      requires Valid()
      ensures minDelta == model.MinDelta()
    {
      SlotsDiffer(model, |model.log|);
      if len == 2 {
        WireDistance(|model.log|, model.pending[1].index);
      }
      minDelta :=
        if len == 1 then WrapSub(slot0.id, window.baseId)
        else if len == 2 then WrapSub(slot1.id, window.baseId)
        else window.baseId;
    }

    /** Catches up with a sender that will not resend what is missing. */
    method Sync(nextSegmentId: u32) returns (out: seq<seq<byte>>)
      requires Valid()
      modifies this
      ensures Valid() && model == old(model).Sync(nextSegmentId)
      ensures old(model).log <= model.log && out == Handed(old(model).log, model.log)
    {
      ghost var rx, k := model, Unwrap(|model.log|, nextSegmentId);
      UnwrapWire(|rx.log|, nextSegmentId);
      out := [];
      var delta := WrapSub(nextSegmentId, window.baseId);
      var minDelta := MinDelta();
      if delta > minDelta && delta <= window.size {
        SyncIs(rx, nextSegmentId);
        out := DeliverBuffered();
        HandedNothing(rx.log, model, k);
        FinishSync(nextSegmentId, k);
      }
    }

    /** Gives up on what is left of the distance. */
    method FinishSync(nextSegmentId: u32, ghost k: nat)
      requires Front() && |model.log| <= k < |model.log| + LAP && nextSegmentId == Wire(k)
      modifies `window, `rxHistory, `nonceHistory, `model
      ensures Front() && model == old(model).SkipTo(k)
    {
      WireDistance(|model.log|, k);
      var remainingDelta := WrapSub(nextSegmentId, window.baseId);
      PushHistorySkips(remainingDelta, model.log);
      window := window.(baseId := nextSegmentId);
      model := model.SkipTo(k);
    }

    static method ComputeChecksum(rxHistory: Word, nonceHistory: Word) returns (checksum: bool)
      requires |rxHistory| == |nonceHistory| == 8
      ensures checksum == Parity(And(rxHistory, nonceHistory), |rxHistory|)
    {
      var x := And(rxHistory, nonceHistory);
      FoldParity(x, 4);
      var y := Xor(x, Shr(x, 4));
      FoldParity(y, 2);
      var z := Xor(y, Shr(y, 2));
      FoldParity(z, 1);
      var w := Xor(z, Shr(z, 1));
      checksum := w[0];
      assert Parity(w, 1) == w[0];
    }

    /** What an acknowledgement says about the last five segments. */
    method NextAckInfo() returns (history: Word, checksum: bool)
      requires Valid()
      ensures AckInfo(model.log, history, checksum)
    {
      history := Cast(And(rxHistory, Mask(32, 5)), 8);
      var nonces := Cast(nonceHistory, 8);
      checksum := ComputeChecksum(history, nonces);
      ParityOfLog(model.log, history, nonces, |history|);
    }
  }

  lemma {:induction false} InsertIntoOne(q: Numbered, p: Numbered)
    ensures Insert([q], p) == if p.index < q.index then [p, q] else [q, p]
  {
    assert [q][1..] == [];
  }

  lemma {:induction false} HasOfTwo(line: seq<Numbered>, k: nat)
    requires |line| <= 2
    ensures Has(line, k) <==> (|line| > 0 && line[0].index == k) || (|line| > 1 && line[1].index == k)
  {
    if line != [] {
      var rest := line[1..];
      assert Has(line, k) == (line[0].index == k || Has(rest, k));
      if rest != [] {
        assert rest[0] == line[1] && rest[1..] == [];
        assert Has(rest, k) == (rest[0].index == k || Has([], k));
      }
    }
  }

  /** The identifiers of waiting segments tell whether an arriving one is among them. */
  lemma {:induction false} SlotsDiffer(rx: Rx, k: nat)
    requires rx.Valid() && |rx.log| <= k < |rx.log| + LAP
    ensures Has(rx.pending, k) <==>
      || (|rx.pending| > 0 && Wire(rx.pending[0].index) == Wire(k))
      || (|rx.pending| > 1 && Wire(rx.pending[1].index) == Wire(k))
    ensures k == |rx.log| ==> !Has(rx.pending, k)
    ensures |rx.pending| > 0 ==> |rx.log| < rx.pending[0].index < |rx.log| + rx.size
    ensures |rx.pending| > 0 ==> WrapSub(Wire(rx.pending[0].index), Wire(|rx.log|)) == rx.pending[0].index - |rx.log|
    ensures |rx.pending| > 1 ==> rx.pending[0].index < rx.pending[1].index < |rx.log| + rx.size
    ensures WrapSub(Wire(k), Wire(|rx.log|)) == k - |rx.log|
  {
    WireDistance(|rx.log|, k);
    HasOfTwo(rx.pending, k);
    if |rx.pending| > 0 {
      var rest := rx.pending[1..];
      assert Sorted(rest, rx.pending[0].index + 1, |rx.log| + rx.size);
      WireDistance(|rx.log|, rx.pending[0].index);
      SameIndex(|rx.log|, rx.pending[0].index, k);
      if |rx.pending| > 1 {
        assert rest[0] == rx.pending[1];
        SameIndex(|rx.log|, rx.pending[1].index, k);
      }
    }
  }

  lemma {:induction false} SameIndex(base: nat, j: nat, k: nat)
    requires base <= j < base + LAP && base <= k < base + LAP
    ensures Wire(j) == Wire(k) <==> j == k
  {
    UnwrapAhead(base, j);
    UnwrapAhead(base, k);
  }

  lemma {:induction false} DeliverAllCases(rx: Rx)
    requires rx.Valid() && Sorted(rx.pending, |rx.log|, |rx.log| + rx.size)
    ensures |rx.pending| == 0 ==> rx.DeliverAll(rx.pending) == rx
    ensures |rx.pending| == 1 ==> rx.DeliverAll(rx.pending) == rx.Deliver(rx.pending[0]).(pending := [])
    ensures |rx.pending| == 2 ==>
      && rx.pending[1].index > rx.pending[0].index
      && rx.DeliverAll(rx.pending) == rx.Deliver(rx.pending[0]).Deliver(rx.pending[1]).(pending := [])
  {
    if |rx.pending| > 0 {
      var rest := rx.pending[1..];
      SortedLater(rest, rx.pending[0].index + 1, |rx.log| + rx.size, rx.pending[0].index + 1 + rx.size);
      if |rx.pending| > 1 {
        assert rest[0] == rx.pending[1] && rest[1..] == [];
        var one := rx.Deliver(rx.pending[0]);
        assert one.DeliverAll(rest) == one.Deliver(rest[0]).DeliverAll([]);
      }
    }
  }

  lemma {:induction false} SyncIs(rx: Rx, id: u32)
    requires rx.Valid() && rx.Syncs(id)
    ensures Sorted(rx.pending, |rx.log|, |rx.log| + rx.size)
    ensures var k, all := Unwrap(|rx.log|, id), rx.DeliverAll(rx.pending);
      |all.log| <= k <= |rx.log| + rx.size && rx.Sync(id) == all.SkipTo(k) && all.pending == [] && all.size == rx.size
  {
    SortedFrom(rx.pending, |rx.log| + 1, |rx.log|, |rx.log| + rx.size);
    DeliverAllCases(rx);
  }

  lemma {:induction false} ParityOfLog(log: seq<Option<Segment>>, history: Word, nonces: Word, n: nat)
    requires |history| == |nonces| == 8 && n <= 8
    requires forall i :: 0 <= i < 8 ==> history[i] == (i < ACK_BITS && Reported(log, i))
    requires forall i :: 0 <= i < 8 ==> nonces[i] == ReportedNonce(log, i)
    ensures Parity(And(history, nonces), n) == LogParity(log, if n <= ACK_BITS then n else ACK_BITS)
    decreases n
  {
    if n > 0 {
      ParityOfLog(log, history, nonces, n - 1);
    }
  }

  // ---- what becomes of segments ----

  /** From `rx` to `t` every segment of the line is handed over at its own index or waits, nothing
      else is handed over, and no index is settled twice. */
  ghost predicate Accounts(rx: Rx, line: seq<Numbered>, t: Rx) {
    && rx.log <= t.log && t.size == rx.size
    && (forall p :: p in line ==> p in t.pending || Logged(t.log, p))
    && (forall p :: p in t.pending ==> p in line)
    && (forall k :: |rx.log| <= k < |t.log| && t.log[k].Some? ==> Numbered(k, t.log[k].value) in line)
    && (t.log == rx.log || exists p :: p in line && p.index == |t.log| - 1)
  }

  predicate Logged(log: seq<Option<Segment>>, p: Numbered) {
    p.index < |log| && log[p.index] == Some(p.segment)
  }

  lemma {:induction false} AccountsNext(rx: Rx, line: seq<Numbered>, t: Rx)
    requires line != [] && line[0].index >= |rx.log| && Accounts(rx.Deliver(line[0]), line[1..], t)
    ensures Accounts(rx, line, t)
  {
    var p, after := line[0], rx.Deliver(line[0]);
    assert after.log <= t.log && Logged(t.log, p);
    forall q | q in line
      ensures q in t.pending || Logged(t.log, q)
    {
      assert q == p || q in line[1..];
    }
    forall k | |rx.log| <= k < |t.log| && t.log[k].Some?
      ensures Numbered(k, t.log[k].value) in line
    {
      if k < |after.log| {
        assert t.log[k] == after.log[k];
        assert k == p.index && Numbered(k, t.log[k].value) == p;
      }
    }
    assert p in line;
  }

  lemma {:induction false} AccountsNothing(rx: Rx, line: seq<Numbered>)
    ensures Accounts(rx, line, rx.(pending := line))
  {
  }

  lemma {:induction false} SettleAccounts(rx: Rx, line: seq<Numbered>)
    requires Sorted(line, |rx.log|, |rx.log| + rx.size)
    ensures Accounts(rx, line, rx.Settle(line))
    decreases |line|
  {
    if line != [] && (line[0].index == |rx.log| || |line| > 2) {
      SettleNext(rx, line);
      SettleAccounts(rx.Deliver(line[0]), line[1..]);
      AccountsNext(rx, line, rx.Settle(line));
    } else {
      AccountsNothing(rx, line);
    }
  }

  lemma {:induction false} SettleValid(rx: Rx, line: seq<Numbered>)
    requires Sorted(line, |rx.log|, |rx.log| + rx.size)
    ensures rx.Settle(line).Valid() && rx.Settle(line).size == rx.size
    decreases |line|
  {
    if line != [] && (line[0].index == |rx.log| || |line| > 2) {
      SettleNext(rx, line);
      SettleValid(rx.Deliver(line[0]), line[1..]);
    } else {
      SortedFrom(line, |rx.log|, |rx.log| + 1, |rx.log| + rx.size);
    }
  }

  lemma {:induction false} DeliverAllAccounts(rx: Rx, line: seq<Numbered>)
    requires Sorted(line, |rx.log|, |rx.log| + rx.size)
    ensures Accounts(rx, line, rx.DeliverAll(line)) && rx.DeliverAll(line).pending == []
    decreases |line|
  {
    if line != [] {
      SortedLater(line[1..], line[0].index + 1, |rx.log| + rx.size, line[0].index + 1 + rx.size);
      DeliverAllAccounts(rx.Deliver(line[0]), line[1..]);
      AccountsNext(rx, line, rx.DeliverAll(line));
    }
  }

  lemma {:induction false} InsertMembers(line: seq<Numbered>, p: Numbered)
    ensures forall q :: q in Insert(line, p) <==> q in line || q == p
    decreases |line|
  {
    if line != [] && p.index >= line[0].index {
      InsertMembers(line[1..], p);
      assert line == [line[0]] + line[1..];
    }
  }

  /** Whatever arrives in whatever order: a segment taken in is handed over once, at its own index
      and with its own data, or waits; no waiting segment is lost; nothing else is handed over. */
  lemma {:induction false} ReceiveAccounts(rx: Rx, id: u32, segment: Segment)
    requires rx.Valid() && rx.Takes(id)
    ensures var p := Numbered(Unwrap(|rx.log|, id), segment);
      Accounts(rx, Insert(rx.pending, p), rx.Receive(id, segment)) && rx.Receive(id, segment).Valid()
    ensures forall q ::
      q in Insert(rx.pending, Numbered(Unwrap(|rx.log|, id), segment)) <==>
      q in rx.pending || q == Numbered(Unwrap(|rx.log|, id), segment)
  {
    var p := Numbered(Unwrap(|rx.log|, id), segment);
    UnwrapWire(|rx.log|, id);
    SortedFrom(rx.pending, |rx.log| + 1, |rx.log|, |rx.log| + rx.size);
    InsertSorted(rx.pending, |rx.log|, |rx.log| + rx.size, p);
    InsertMembers(rx.pending, p);
    SettleAccounts(rx, Insert(rx.pending, p));
    SettleValid(rx, Insert(rx.pending, p));
  }

  /** An accepted sync hands over exactly what waits, in order, and settles every index before the
      new base. */
  lemma {:induction false} SyncAccounts(rx: Rx, id: u32)
    requires rx.Valid() && rx.Syncs(id)
    ensures var t, k := rx.Sync(id), Unwrap(|rx.log|, id);
      && t.Valid() && t.pending == [] && t.size == rx.size && rx.log <= t.log && |t.log| == k
      && (forall p :: p in rx.pending ==> Logged(t.log, p))
      && (forall j :: |rx.log| <= j < k && t.log[j].Some? ==> Numbered(j, t.log[j].value) in rx.pending)
  {
    SyncIs(rx, id);
    DeliverAllAccounts(rx, rx.pending);
    var all, t := rx.DeliverAll(rx.pending), rx.Sync(id);
    assert all.log <= t.log;
    forall j | |rx.log| <= j < |t.log| && t.log[j].Some?
      ensures Numbered(j, t.log[j].value) in rx.pending
    {
      assert j < |all.log| && t.log[j] == all.log[j];
    }
  }

  /** With nothing waiting, a sync to an index ahead within the window is ignored exactly when its
      distance does not exceed the identifier expected next. */
  lemma {:induction false} EmptySyncIgnoredExactly(rx: Rx, k: nat)
    requires rx.Valid() && rx.pending == [] && |rx.log| < k <= |rx.log| + rx.size
    ensures rx.Sync(Wire(k)) == rx <==> k - |rx.log| <= Wire(|rx.log|)
  {
    UnwrapAhead(|rx.log|, k);
    if rx.Syncs(Wire(k)) {
      SyncAccounts(rx, Wire(k));
    }
  }
}
