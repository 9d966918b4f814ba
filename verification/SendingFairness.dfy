/** How two channels with enough to send share what leaves, frame after frame. */
module SendingFairness {
  import opened Words
  import opened Fragments
  import opened Codec
  import opened Sending
  import P = Prio
  import R = Reliable

  type Config = c: P.Config | c.Valid() witness P.Config([1, 1, 1, 1], 1)

  // ---- what the datagrams weigh ----

  function Weight(config: Config, d: Datagram): nat {
    |d.data| * config.weights[if d.unrel then UNREL else REL]
  }

  function Signed(config: Config, d: Datagram): int {
    var weight: int := Weight(config, d);
    if d.unrel then weight else -weight
  }

  /** No datagram is dearer than `limit`. */
  predicate Affordable(config: Config, ds: seq<Datagram>, limit: nat) {
    forall d :: d in ds ==> Weight(config, d) <= limit
  }

  /** By how much the unreliable channel is ahead, in weighted bytes. */
  function Lead(config: Config, ds: seq<Datagram>): int {
    config.weights[UNREL] * DataSize(Of(ds, true)) - config.weights[REL] * DataSize(Of(ds, false))
  }

  lemma {:induction false} LeadNext(config: Config, d: Datagram, ds: seq<Datagram>)
    ensures Lead(config, [d] + ds) == Signed(config, d) + Lead(config, ds)
  {
    OfFirst(d, ds, true);
    OfFirst(d, ds, false);
    var own, other := Of(ds, d.unrel), Of(ds, !d.unrel);
    assert ([d] + own)[1..] == own && [] + other == other;
    assert DataSize([d] + own) == |d.data| + DataSize(own);
    Distribute(|d.data|, DataSize(own), config.weights[if d.unrel then UNREL else REL]);
  }

  lemma {:induction false} Distribute(a: int, b: int, w: int)
    ensures w * (a + b) == a * w + w * b
  {
  }

  lemma {:induction false} LeadConcat(config: Config, a: seq<Datagram>, b: seq<Datagram>)
    ensures Lead(config, a + b) == Lead(config, a) + Lead(config, b)
    decreases |a|
  {
    if a == [] {
      assert a + b == b;
    } else {
      assert a == [a[0]] + a[1..] && a + b == [a[0]] + (a[1..] + b);
      LeadNext(config, a[0], a[1..]);
      LeadNext(config, a[0], a[1..] + b);
      LeadConcat(config, a[1..], b);
    }
  }

  // ---- one frame ----

  /** Both channels have something to send whenever a datagram is taken. */
  predicate BothReady(q: Queues, config: Config, now: u64, space: int)
    requires q.Valid()
    decreases q.Size()
  {
    FilledStep(q, config, now, space);
    var (next, written) := FillOne(q, config, now, space);
    written.Some? ==>
      && q.Expire(now).unrel.queue != [] && q.rel.CanSend()
      && BothReady(next, config, now, space - DatagramSize(written.value))
  }

  function Gap(q: Queues): int
    requires q.Valid()
  {
    (q.counters[UNREL] as int) - (q.counters[REL] as int)
  }

  predicate Within(x: int, limit: int) {
    -limit <= x <= limit
  }

  ghost predicate Sound(config: Config, q: Queues) {
    q.Valid() && P.Bounded(q.counters, config.counterMax)
  }

  /** Charging the channel that owes less moves the gap by just the charge. */
  lemma {:induction false} ChargeMoves(counters: seq<u32>, c: nat, cost: nat, m: u32)
    requires P.Bounded(counters, m) && c < 2 && cost <= m && counters[c] <= counters[1 - c]
    ensures var after := P.Charge(counters, c, cost, m);
      P.Bounded(after, m) && after[c] as int - after[1 - c] as int == counters[c] as int - counters[1 - c] as int + cost
  {
  }

  /** A datagram taken is charged to its channel: the gap moves with the lead. */
  lemma {:induction false} PopMoves(config: Config, q: Queues, now: u64, space: int, limit: nat)
    requires Sound(config, q) && limit <= config.counterMax && Within(Gap(q), limit)
    requires FillOne(q, config, now, space).1.Some?
    requires q.Expire(now).unrel.queue != [] && q.rel.CanSend()
    requires Weight(config, FillOne(q, config, now, space).1.value) <= limit
    ensures var (next, d) := FillOne(q, config, now, space);
      && Sound(config, next) && Within(Gap(next), limit)
      && Gap(next) == Gap(q) + Signed(config, d.value)
  {
    ExpireKeepsValid(q, now);
    var due := q.Expire(now);
    var c := due.Next().value;
    var d := due.Head(c);
    assert d.unrel == (c == UNREL);
    ChosenOwesLess(due);
    ChargeMoves(due.counters, c, Weight(config, d), config.counterMax);
  }

  lemma {:induction false} ChosenOwesLess(q: Queues)
    requires q.Valid() && q.unrel.queue != [] && q.rel.CanSend()
    ensures q.Next().Some? && var c := q.Next().value; c < 2 && q.counters[c] <= q.counters[1 - c]
  {
    var ready := [true, true, false, false];
    assert ready[0] && ready[1];
    assert P.Chooses(q.counters, ready, P.Choice(q.counters, ready));
  }

  lemma {:induction false} FrameMoves(config: Config, q: Queues, now: u64, space: int, limit: nat)
    requires Sound(config, q) && limit <= config.counterMax && Within(Gap(q), limit)
    requires BothReady(q, config, now, space) && Affordable(config, Filled(q, config, now, space).1, limit)
    ensures var (after, ds) := Filled(q, config, now, space);
      Sound(config, after) && Within(Gap(after), limit) && Gap(after) == Gap(q) + Lead(config, ds)
    decreases q.Size()
  {
    hide FillOne, Filled, Lead, Weight;
    FilledStep(q, config, now, space);
    var (next, written) := FillOne(q, config, now, space);
    if written.None? {
      FilledNothing(config, q, now, space);
    } else {
      var d, left := written.value, space - DatagramSize(written.value);
      var ds := Filled(next, config, now, left).1;
      assert d in [d] + ds && forall x :: x in ds ==> x in [d] + ds;
      PopMoves(config, q, now, space, limit);
      FrameMoves(config, next, now, left, limit);
      LeadNext(config, d, ds);
    }
  }

  lemma {:induction false} FilledNothing(config: Config, q: Queues, now: u64, space: int)
    requires Sound(config, q) && FillOne(q, config, now, space).1.None?
    ensures FillOne(q, config, now, space).0.counters == q.counters && Lead(config, []) == 0
  {
  }

  // ---- frame after frame ----

  /** A frame is filled; what else happens to the queues meanwhile. */
  datatype Act =
    | Fill(now: u64, space: int)
    | Enqueue(packet: Packet, mode: SendMode, now: u64)
    | Acknowledge(id: Option<u32>)
    | Rewind

  function Apply(config: Config, q: Queues, a: Act): (r: (Queues, seq<Datagram>))
    requires q.Valid()
    ensures r.0.Valid()
  {
    match a
    case Fill(now, space) => Filled(q, config, now, space)
    case Enqueue(packet, mode, now) =>
      if mode.Unreliable? && now + mode.timeout + 1 >= 0x1_0000_0000_0000_0000 then (q, [])
      else EnqueueKeepsValid(q, packet, mode, now); (q.Enqueue(packet, mode, now), [])
    case Acknowledge(id) =>
      if id.None? then (q, []) else AcknowledgeKeepsValid(q, id.value); (q.Acknowledge(id), [])
    case Rewind => R.TxStepsKeepValid(q.rel, [], FRAGMENT_SIZE, 0); (q.Rewind(), [])
  }

  /** All that has left. */
  function After(config: Config, q: Queues, acts: seq<Act>): (r: (Queues, seq<Datagram>))
    requires q.Valid()
    ensures r.0.Valid()
    decreases |acts|
  {
    if acts == [] then (q, [])
    else
      var (before, sent) := After(config, q, acts[..|acts| - 1]);
      var (after, ds) := Apply(config, before, acts[|acts| - 1]);
      (after, sent + ds)
  }

  /** Neither channel ever runs dry while a frame is filled, and no datagram is dearer than `limit`. */
  predicate Busy(config: Config, q: Queues, acts: seq<Act>, limit: nat)
    requires q.Valid()
    decreases |acts|
  {
    acts == [] ||
    var front, a := acts[..|acts| - 1], acts[|acts| - 1];
    var before := After(config, q, front).0;
    && Busy(config, q, front, limit)
    && (a.Fill? ==> BothReady(before, config, a.now, a.space) && Affordable(config, Apply(config, before, a).1, limit))
  }

  lemma {:induction false} ActMoves(config: Config, q: Queues, a: Act, limit: nat)
    requires Sound(config, q) && limit <= config.counterMax && Within(Gap(q), limit)
    requires a.Fill? ==> BothReady(q, config, a.now, a.space) && Affordable(config, Apply(config, q, a).1, limit)
    ensures var (after, ds) := Apply(config, q, a);
      Sound(config, after) && Within(Gap(after), limit) && Gap(after) == Gap(q) + Lead(config, ds)
  {
    if a.Fill? {
      FrameMoves(config, q, a.now, a.space, limit);
    } else {
      LeadOfNothing(config);
    }
  }

  lemma {:induction false} LeadOfNothing(config: Config)
    ensures Lead(config, []) == 0
  {
  }

  lemma {:induction false} LeadIsGap(config: Config, q: Queues, acts: seq<Act>, limit: nat)
    requires Sound(config, q) && limit <= config.counterMax && Within(Gap(q), limit) && Busy(config, q, acts, limit)
    ensures var (after, ds) := After(config, q, acts);
      Sound(config, after) && Within(Gap(after), limit) && Lead(config, ds) == Gap(after) - Gap(q)
    decreases |acts|
  {
    hide Queues.Valid, Lead, Apply, BothReady, Affordable;
    if acts == [] {
      LeadOfNothing(config);
    } else {
      var front, a := acts[..|acts| - 1], acts[|acts| - 1];
      LeadIsGap(config, q, front, limit);
      var (before, sent) := After(config, q, front);
      ActMoves(config, before, a, limit);
      LeadConcat(config, sent, Apply(config, before, a).1);
    }
  }

  /** From a fresh scheduler, frame after frame, whatever is enqueued, acknowledged or sent again meanwhile:
      while neither channel runs dry, the weighted bytes of the datagrams of the two channels differ by no more
      than the dearest datagram. */
  lemma {:induction false} FairShares(config: Config, q: Queues, acts: seq<Act>, limit: nat)
    requires q.Valid() && q.counters == [0, 0, 0, 0] && limit <= config.counterMax && Busy(config, q, acts, limit)
    ensures var ds := After(config, q, acts).1;
      Within(config.weights[UNREL] * DataSize(Of(ds, true)) - config.weights[REL] * DataSize(Of(ds, false)), limit)
  {
    hide Queues.Valid, After, Busy;
    LeadIsGap(config, q, acts, limit);
  }
}
