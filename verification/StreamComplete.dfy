/** One direction of a connection when nothing is lost: then everything sent arrives. */
module StreamComplete {
  import opened Words
  import opened Fragments
  import opened Codec
  import opened Mailbox
  import opened StreamChannel
  import F = Frame
  import P = Prio
  import S = Sending
  import G = SegmentChannel
  import R = SegmentRx
  import A = UnreliableArrivals
  import L = ReliableChannel
  import Unreliable
  import Reliable

  // ---- the two receivers apart ----

  /** The reliable receiver and the packets it returns. */
  function Hear(rx: Reliable.Rx, ds: seq<Datagram>): (Reliable.Rx, seq<Packet>)
    decreases |ds|
  {
    if ds == [] then (rx, [])
    else
      var (before, done) := Hear(rx, ds[..|ds| - 1]);
      var d := ds[|ds| - 1];
      var f := FragmentOf(d);
      (before.Receive(d.id, f, S.FRAGMENT_SIZE), done + before.Completed(d.id, f, S.FRAGMENT_SIZE))
  }

  /** Likewise the unreliable one. */
  function HearLoose(rx: Unreliable.Rx, ds: seq<Datagram>): (Unreliable.Rx, seq<Packet>)
    decreases |ds|
  {
    if ds == [] then (rx, [])
    else
      var (before, done) := HearLoose(rx, ds[..|ds| - 1]);
      var d := ds[|ds| - 1];
      var f := FragmentOf(d);
      (before.Receive(d.id, f, S.FRAGMENT_SIZE), done + before.Completed(d.id, f, S.FRAGMENT_SIZE))
  }

  function FragmentOf(d: Datagram): Fragment {
    Fragment(d.first, d.last, d.data)
  }

  function FragmentsOf(ds: seq<Datagram>): (fs: seq<Fragment>)
    ensures |fs| == |ds| && forall i :: 0 <= i < |ds| ==> fs[i] == FragmentOf(ds[i])
  {
    seq(|ds|, i requires 0 <= i < |ds| => FragmentOf(ds[i]))
  }

  lemma {:induction false} OfLast(ds: seq<Datagram>, d: Datagram, unrel: bool)
    ensures S.Of(ds + [d], unrel) == S.Of(ds, unrel) + if d.unrel == unrel then [d] else []
    decreases |ds|
  {
    hide S.Of;
    if ds == [] {
      OfOne(d, unrel);
      assert [] + [d] == [d];
    } else {
      var first, rest := ds[0], ds[1..];
      assert ds == [first] + rest && ds + [d] == [first] + (rest + [d]);
      OfLast(rest, d, unrel);
      S.OfFirst(first, rest, unrel);
      S.OfFirst(first, rest + [d], unrel);
    }
  }

  lemma {:induction false} OfOne(d: Datagram, unrel: bool)
    ensures S.Of([d], unrel) == (if d.unrel == unrel then [d] else []) && S.Of([], unrel) == []
  {
    assert [d][1..] == [];
  }

  lemma {:induction false} OfConcat(a: seq<Datagram>, b: seq<Datagram>, unrel: bool)
    ensures S.Of(a + b, unrel) == S.Of(a, unrel) + S.Of(b, unrel)
    decreases |b|
  {
    if b == [] {
      assert a + b == a;
    } else {
      var front, d := b[..|b| - 1], b[|b| - 1];
      assert a + b == a + front + [d] && b == front + [d];
      OfConcat(a, front, unrel);
      OfLast(a + front, d, unrel);
      OfLast(front, d, unrel);
    }
  }

  lemma {:induction false} HearNext(rx: Reliable.Rx, ds: seq<Datagram>, d: Datagram)
    ensures var (before, done) := Hear(rx, ds);
      Hear(rx, ds + [d]) == (before.Receive(d.id, FragmentOf(d), S.FRAGMENT_SIZE),
                             done + before.Completed(d.id, FragmentOf(d), S.FRAGMENT_SIZE))
  {
    assert (ds + [d])[..|ds|] == ds;
  }

  lemma {:induction false} HearLooseNext(rx: Unreliable.Rx, ds: seq<Datagram>, d: Datagram)
    ensures var (before, done) := HearLoose(rx, ds);
      HearLoose(rx, ds + [d]) == (before.Receive(d.id, FragmentOf(d), S.FRAGMENT_SIZE),
                                  done + before.Completed(d.id, FragmentOf(d), S.FRAGMENT_SIZE))
  {
    assert (ds + [d])[..|ds|] == ds;
  }

  /** Taking in datagrams of both channels is hearing each channel on its own. */
  lemma {:induction false} TakeAllApart(m: Mail, ds: seq<Datagram>)
    requires m.packets == []
    ensures var t := TakeAll(m, ds);
      var (unrel, us) := HearLoose(m.unrel, S.Of(ds, true)); var (rel, rs) := Hear(m.rel, S.Of(ds, false));
      t.unrel == unrel && t.rel == rel && Merge(t.packets, us, rs)
    decreases |ds|
  {
    hide Hear, HearLoose, S.Of, Merge;
    if ds == [] {
      NothingHeard(m);
    } else {
      var front, d := ds[..|ds| - 1], ds[|ds| - 1];
      assert ds == front + [d];
      TakeAllApart(m, front);
      OfLast(front, d, true);
      OfLast(front, d, false);
      var (unrel, us) := HearLoose(m.unrel, S.Of(front, true));
      var (rel, rs) := Hear(m.rel, S.Of(front, false));
      if d.unrel {
        HearLooseNext(m.unrel, S.Of(front, true), d);
        Unchanged(S.Of(front, false));
        MergeMore(TakeAll(m, front).packets, us, rs, unrel.Completed(d.id, FragmentOf(d), S.FRAGMENT_SIZE));
      } else {
        HearNext(m.rel, S.Of(front, false), d);
        Unchanged(S.Of(front, true));
        MergeMore(TakeAll(m, front).packets, us, rs, rel.Completed(d.id, FragmentOf(d), S.FRAGMENT_SIZE));
      }
    }
  }

  lemma {:induction false} Unchanged(ds: seq<Datagram>)
    ensures ds + [] == ds
  {
  }

  lemma {:induction false} NothingHeard(m: Mail)
    requires m.packets == []
    ensures S.Of([], true) == S.Of([], false) == []
    ensures HearLoose(m.unrel, []) == (m.unrel, []) && Hear(m.rel, []) == (m.rel, []) && Merge(m.packets, [], [])
  {
  }

  /** Under consecutive identifiers it is what `UnreliableArrivals` is about. */
  lemma {:induction false} LooseIsTakenIn(rx: Unreliable.Rx, ds: seq<Datagram>)
    requires forall i :: 0 <= i < |ds| ==> ds[i].id == Wire(i)
    ensures HearLoose(rx, ds) == A.TakeIn(rx, 0, FragmentsOf(ds), S.FRAGMENT_SIZE)
    decreases |ds|
  {
    if ds != [] {
      var front := ds[..|ds| - 1];
      LooseIsTakenIn(rx, front);
      assert FragmentsOf(ds)[..|ds| - 1] == FragmentsOf(front);
    }
  }

  // ---- what leaves the queues ----

  /** How many of the unreliable fragments have been sent or wait, and that these are all, unless one expired. */
  ghost predicate LooseKept(queue: seq<Unreliable.Entry>, next: nat, sent: seq<Datagram>, all: seq<Fragment>) {
    && |sent| == next && (forall i :: 0 <= i < |sent| ==> sent[i].id == Wire(i))
    && next + |queue| <= |all|
    && (next + |queue| == |all| ==> FragmentsOf(sent) + A.Fronts(queue) == all)
  }

  /** The receiver that hears all that is sent is as far as the sender ever got. */
  ghost predicate Followed(rel: Reliable.Tx, sent: seq<Datagram>, all: seq<Fragment>) {
    && rel.Valid() && L.QueueHolds(rel, 0, all)
    && var (rx, done) := Hear(Reliable.Rx(0, None), sent);
       rx.next == rel.maxAck && L.RxHolds(rx, done, 0, all)
  }

  ghost predicate SizesValid(all: seq<Fragment>) {
    forall f :: f in all ==> SizeIsValid(f, S.FRAGMENT_SIZE)
  }

  lemma {:induction false} ExpireKeepsLoose(queue: seq<Unreliable.Entry>, next: nat, sent: seq<Datagram>,
                                            all: seq<Fragment>, now: u64)
    requires LooseKept(queue, next, sent, all)
    ensures LooseKept(Unreliable.Unexpired(queue, now), next, sent, all)
  {
    Unreliable.UnexpiredIsSuffix(queue, now);
  }

  lemma {:induction false} SendKeepsLoose(queue: seq<Unreliable.Entry>, next: nat, sent: seq<Datagram>,
                                          all: seq<Fragment>)
    requires LooseKept(queue, next, sent, all) && queue != []
    ensures LooseKept(queue[1..], next + 1, sent + [S.AsDatagram(queue[0].fragment, next, true)], all)
  {
    var d := S.AsDatagram(queue[0].fragment, next, true);
    assert FragmentsOf(sent + [d]) == FragmentsOf(sent) + [queue[0].fragment];
    assert A.Fronts(queue) == [queue[0].fragment] + A.Fronts(queue[1..]);
    assert FragmentsOf(sent) + [queue[0].fragment] + A.Fronts(queue[1..]) == FragmentsOf(sent) + A.Fronts(queue);
  }

  lemma {:induction false} SendKeepsFollowed(rel: Reliable.Tx, sent: seq<Datagram>, all: seq<Fragment>)
    requires Followed(rel, sent, all) && SizesValid(all) && rel.CanSend()
    ensures Followed(rel.Send(), sent + [S.AsDatagram(rel.queue[rel.next - rel.base], rel.next, false)], all)
  {
    var f, k := rel.queue[rel.next - rel.base], rel.next;
    var d := S.AsDatagram(f, k, false);
    var (rx, done) := Hear(Reliable.Rx(0, None), sent);
    HearNext(Reliable.Rx(0, None), sent, d);
    assert f == all[k] && f in all && FragmentOf(d) == f;
    L.TakeInKeeps(rx, done, 0, all, k, S.FRAGMENT_SIZE);
  }

  /** The queues, and all that has left them. */
  ghost predicate QueuesHold(q: S.Queues, out: seq<Datagram>, loose: seq<Fragment>, bound: seq<Fragment>) {
    && q.Valid() && SizesValid(bound)
    && LooseKept(q.unrel.queue, q.unrel.next, S.Of(out, true), loose)
    && Followed(q.rel, S.Of(out, false), bound)
  }

  lemma {:induction false} FillOneKeeps(q: S.Queues, config: P.Config, now: u64, space: int, out: seq<Datagram>,
                                        loose: seq<Fragment>, bound: seq<Fragment>)
    requires QueuesHold(q, out, loose, bound) && |config.weights| == P.CHANNELS
    ensures var (q', d) := S.FillOne(q, config, now, space);
      QueuesHold(q', if d.Some? then out + [d.value] else out, loose, bound)
  {
    hide LooseKept, Followed, P.Charge, P.Choice;
    S.ExpireKeepsValid(q, now);
    ExpireKeepsLoose(q.unrel.queue, q.unrel.next, S.Of(out, true), loose, now);
    var due := q.Expire(now);
    if due.Next().Some? && DatagramSize(due.Head(due.Next().value)) <= space {
      var d := due.Head(due.Next().value);
      S.PopKeepsValid(due, due.Next().value, config);
      OfLast(out, d, true);
      OfLast(out, d, false);
      if d.unrel {
        SendKeepsLoose(due.unrel.queue, due.unrel.next, S.Of(out, true), loose);
        Unchanged(S.Of(out, false));
      } else {
        SendKeepsFollowed(due.rel, S.Of(out, false), bound);
        Unchanged(S.Of(out, true));
      }
    }
  }

  lemma {:induction false} FilledKeeps(q: S.Queues, config: P.Config, now: u64, space: int, out: seq<Datagram>,
                                       loose: seq<Fragment>, bound: seq<Fragment>)
    requires QueuesHold(q, out, loose, bound) && |config.weights| == P.CHANNELS
    ensures var (q', ds) := S.Filled(q, config, now, space); QueuesHold(q', out + ds, loose, bound)
    decreases q.Size()
  {
    hide QueuesHold, S.Filled, S.FillOne;
    QueuesValid(q, out, loose, bound);
    S.FilledStep(q, config, now, space);
    FillOneKeeps(q, config, now, space, out, loose, bound);
    var (next, written) := S.FillOne(q, config, now, space);
    if written.None? {
      Unchanged(out);
    } else {
      var left := space - DatagramSize(written.value);
      FilledKeeps(next, config, now, left, out + [written.value], loose, bound);
      assert out + ([written.value] + S.Filled(next, config, now, left).1) ==
             out + [written.value] + S.Filled(next, config, now, left).1;
    }
  }

  lemma {:induction false} QueuesValid(q: S.Queues, out: seq<Datagram>, loose: seq<Fragment>, bound: seq<Fragment>)
    requires QueuesHold(q, out, loose, bound)
    ensures q.Valid()
  {
  }

  // ---- runs ----

  /** What each segment was filled with. */
  ghost function Cargo(actions: seq<Action>): seq<seq<Datagram>>
    decreases |actions|
  {
    if actions == [] then []
    else
      var front := actions[..|actions| - 1];
      Cargo(front) + CargoMore(After(front), actions[|actions| - 1])
  }

  function Flat(cargo: seq<seq<Datagram>>): seq<Datagram>
    decreases |cargo|
  {
    if cargo == [] then [] else Flat(cargo[..|cargo| - 1]) + cargo[|cargo| - 1]
  }

  lemma {:induction false} FlatNext(cargo: seq<seq<Datagram>>, ds: seq<Datagram>)
    ensures Flat(cargo + [ds]) == Flat(cargo) + ds
  {
    assert (cargo + [ds])[..|cargo|] == cargo;
  }

  /** Every segment decodes to what it was filled with. */
  ghost predicate CargoOf(sent: seq<R.Segment>, cargo: seq<seq<Datagram>>) {
    |cargo| == |sent| && forall j :: 0 <= j < |sent| ==> DecodeAll(sent[j].data) == cargo[j]
  }

  ghost predicate Sends(s: System, cargo: seq<seq<Datagram>>) {
    && CargoOf(s.seg.sent, cargo) && s.seg.start == 0
    && QueuesHold(s.queues, Flat(cargo), FragmentizeAll(s.unrelPushed, S.FRAGMENT_SIZE),
                  FragmentizeAll(s.relPushed, S.FRAGMENT_SIZE))
  }

  lemma {:induction false} LooseLonger(queue: seq<Unreliable.Entry>, next: nat, sent: seq<Datagram>, all: seq<Fragment>,
                                       fs: seq<Fragment>, expireTime: u64)
    requires LooseKept(queue, next, sent, all)
    ensures LooseKept(queue + Unreliable.Timed(fs, expireTime), next, sent, all + fs)
  {
    assert A.Fronts(queue + Unreliable.Timed(fs, expireTime)) == A.Fronts(queue) + fs;
  }

  lemma {:induction false} FollowedLonger(rel: Reliable.Tx, sent: seq<Datagram>, all: seq<Fragment>, fs: seq<Fragment>)
    requires Followed(rel, sent, all)
    ensures Followed(rel.(queue := rel.queue + fs), sent, all + fs)
  {
    assert (all + fs)[..rel.maxAck] == all[..rel.maxAck];
  }

  lemma {:induction false} EnqueueSends(s: System, cargo: seq<seq<Datagram>>, packet: Packet, mode: S.SendMode,
                                        now: u64)
    requires Sends(s, cargo) && Shape(s) && Enabled(s, Enqueue(packet, mode, now))
    ensures Sends(Step(s, Enqueue(packet, mode, now)), cargo)
  {
    hide LooseKept, Followed, Fragmentize, CargoOf, G.Inv;
    var t := Step(s, Enqueue(packet, mode, now));
    S.EnqueueKeepsValid(s.queues, packet, mode, now);
    AllSizesValid(t.relPushed, S.FRAGMENT_SIZE);
    var fs := Fragmentize(packet, S.FRAGMENT_SIZE);
    if mode.Reliable? {
      assert t.relPushed[..|s.relPushed|] == s.relPushed;
      FollowedLonger(s.queues.rel, S.Of(Flat(cargo), false), FragmentizeAll(s.relPushed, S.FRAGMENT_SIZE), fs);
    } else {
      assert t.unrelPushed[..|s.unrelPushed|] == s.unrelPushed;
      LooseLonger(s.queues.unrel.queue, s.queues.unrel.next, S.Of(Flat(cargo), true),
                  FragmentizeAll(s.unrelPushed, S.FRAGMENT_SIZE), fs, now + mode.timeout + 1);
    }
  }

  lemma {:induction false} AckedIs(rel: Reliable.Tx, id: u32)
    requires rel.Valid()
    ensures var r := rel.Acknowledge(id);
      && r.Valid() && r.maxAck == rel.maxAck && rel.base <= r.base <= rel.base + |rel.queue|
      && r.queue == rel.queue[r.base - rel.base..]
  {
    UnwrapWire(rel.base, id);
  }

  lemma {:induction false} AckKeepsFollowed(rel: Reliable.Tx, sent: seq<Datagram>, all: seq<Fragment>, id: u32)
    requires Followed(rel, sent, all)
    ensures Followed(rel.Acknowledge(id), sent, all) && Followed(rel.Rewind(), sent, all)
  {
    hide Hear, L.RxHolds, Reliable.Tx.Acknowledge;
    AckedIs(rel, id);
    var k := rel.Acknowledge(id).base;
    assert all[rel.base..][k - rel.base..] == all[k..];
  }

  lemma {:induction false} SendSends(s: System, cargo: seq<seq<Datagram>>, a: Action)
    requires Sends(s, cargo) && a.SendSegment? && Shape(s) && Enabled(s, a)
    ensures Sends(Step(s, a), cargo + [S.Filled(s.queues, a.config, a.now, a.space).1])
  {
    hide QueuesHold, S.Filled, G.Inv, EncodeAll, DecodeAll;
    var ds := S.Filled(s.queues, a.config, a.now, a.space).1;
    FilledKeeps(s.queues, a.config, a.now, a.space, Flat(cargo), FragmentizeAll(s.unrelPushed, S.FRAGMENT_SIZE),
                FragmentizeAll(s.relPushed, S.FRAGMENT_SIZE));
    FlatNext(cargo, ds);
    AllRoundTrip(ds);
  }

  lemma {:induction false} LocalSends(s: System, cargo: seq<seq<Datagram>>, a: Action)
    requires Sends(s, cargo) && Shape(s) && Enabled(s, a) && (a.Expire? || a.Timeout? || a.DeliverAck?)
    ensures Sends(Step(s, a), cargo)
  {
    hide LooseKept, Followed, FragmentizeAll, CargoOf, G.Inv, Flat;
    var bound, out := FragmentizeAll(s.relPushed, S.FRAGMENT_SIZE), S.Of(Flat(cargo), false);
    StepKeepsShape(s, a);
    match a
    case Expire(now) =>
      ExpireKeepsLoose(s.queues.unrel.queue, s.queues.unrel.next, S.Of(Flat(cargo), true),
                       FragmentizeAll(s.unrelPushed, S.FRAGMENT_SIZE), now);
    case Timeout => AckKeepsFollowed(s.queues.rel, out, bound, 0);
    case DeliverAck(_, rel) =>
      if rel.Some? {
        AckKeepsFollowed(s.queues.rel, out, bound, Wire(rel.value));
      }
    case _ =>
  }

  lemma {:induction false} OtherSends(s: System, cargo: seq<seq<Datagram>>, a: Action)
    requires Sends(s, cargo) && Shape(s) && Enabled(s, a)
    requires a.DeliverSegment? || a.EmitAck? || a.EmitSync? || a.DeliverSync?
    ensures Sends(Step(s, a), cargo)
  {
    hide QueuesHold, CargoOf, G.Inv, TakeAll;
  }

  ghost function CargoMore(s: System, a: Action): seq<seq<Datagram>>
    requires Shape(s)
  {
    if a.SendSegment? && Enabled(s, a) then [S.Filled(s.queues, a.config, a.now, a.space).1] else []
  }

  lemma {:induction false} StepSends(s: System, cargo: seq<seq<Datagram>>, a: Action)
    requires Sends(s, cargo) && Shape(s) && Enabled(s, a)
    ensures Sends(Step(s, a), cargo + CargoMore(s, a))
  {
    hide Sends, Step, Enabled, Shape, S.Filled;
    assert !a.SendSegment? ==> cargo + [] == cargo;
    match a
    case Enqueue(packet, mode, now) => EnqueueSends(s, cargo, packet, mode, now);
    case SendSegment(_, _, _, _) => SendSends(s, cargo, a);
    case Expire(_) | Timeout | DeliverAck(_, _) => LocalSends(s, cargo, a);
    case _ => OtherSends(s, cargo, a);
  }

  lemma {:induction false} RunSends(actions: seq<Action>)
    ensures Sends(After(actions), Cargo(actions))
    decreases |actions|
  {
    if actions == [] {
      NothingSent();
    } else {
      hide Sends, Step, Enabled, S.Filled;
      var front, a := actions[..|actions| - 1], actions[|actions| - 1];
      RunSends(front);
      if Enabled(After(front), a) {
        StepSends(After(front), Cargo(front), a);
      } else {
        assert Cargo(front) + [] == Cargo(front);
      }
    }
  }

  lemma {:induction false} NothingSent()
    ensures Sends(Init(), [])
  {
    var none: seq<Fragment> := [];
    assert none[0..] == none && none[..0] == none && FragmentsOf([]) + A.Fronts([]) == none;
    assert S.Of([], true) == S.Of([], false) == [];
  }

  // ---- what arrives ----

  const NO_MAIL := Mail(Unreliable.Rx(0, None), Reliable.Rx(0, None), [])

  ghost predicate NoSync(actions: seq<Action>) {
    forall a :: a in actions ==> !a.DeliverSync?
  }

  lemma {:induction false} DecodeEachConcat(a: seq<seq<byte>>, b: seq<seq<byte>>)
    ensures DecodeEach(a + b) == DecodeEach(a) + DecodeEach(b)
    decreases |b|
  {
    if b == [] {
      assert a + b == a;
    } else {
      assert (a + b)[..|a + b| - 1] == a + b[..|b| - 1];
      DecodeEachConcat(a, b[..|b| - 1]);
    }
  }

  /** All segments handed over have been taken in, one datagram after another. */
  ghost predicate Hears(s: System) {
    s.mail == TakeAll(NO_MAIL, DecodeEach(R.Payloads(s.seg.rx.log)))
  }

  lemma {:induction false} TakenHears(s: System, rx: R.Rx)
    requires Hears(s) && s.seg.rx.log <= rx.log
    ensures Taken(s, rx).mail == TakeAll(NO_MAIL, DecodeEach(R.Payloads(rx.log)))
  {
    hide TakeAll, DecodeEach, R.Payloads;
    var log, more := s.seg.rx.log, rx.log[|s.seg.rx.log|..];
    assert rx.log == log + more;
    R.PayloadsConcat(log, more);
    DecodeEachConcat(R.Payloads(log), R.Payloads(more));
    TakeAllConcat(NO_MAIL, DecodeEach(R.Payloads(log)), DecodeEach(R.Payloads(more)));
  }

  lemma {:induction false} StepHears(s: System, a: Action)
    requires Hears(s) && Shape(s) && Enabled(s, a) && !a.DeliverSync?
    ensures Hears(Step(s, a))
  {
    hide TakeAll, DecodeEach, R.Payloads, G.Inv, S.Filled, R.Rx.Receive;
    match a
    case DeliverSegment(k) =>
      InvOf(s);
      LogGrows(s.seg.rx, Wire(k), s.seg.sent[k - s.seg.start]);
      TakenHears(s, Deliver(s, k));
    case _ =>
  }

  lemma {:induction false} InvOf(s: System)
    requires Shape(s)
    ensures s.seg.rx.Valid() && s.seg.tx.Valid() && |s.seg.sent| == s.seg.tx.next - s.seg.start
  {
  }

  lemma {:induction false} LogGrows(rx: R.Rx, id: u32, segment: R.Segment)
    requires rx.Valid()
    ensures rx.log <= rx.Receive(id, segment).log
  {
    if rx.Takes(id) {
      R.ReceiveAccounts(rx, id, segment);
    }
  }

  lemma {:induction false} RunHears(actions: seq<Action>)
    requires NoSync(actions)
    ensures Hears(After(actions))
    decreases |actions|
  {
    if actions != [] {
      hide Hears, Step, Enabled;
      var front, a := actions[..|actions| - 1], actions[|actions| - 1];
      RunHears(front);
      if Enabled(After(front), a) {
        StepHears(After(front), a);
      }
    } else {
      NothingHeardYet();
    }
  }

  lemma {:induction false} NothingHeardYet()
    ensures Hears(Init())
  {
    assert R.Skips(0) == [];
  }

  // ---- nothing lost ----

  /** Every segment sent has arrived and been taken in. */
  ghost predicate AllIn(s: System) {
    |s.seg.rx.log| == |s.seg.sent| && forall j :: 0 <= j < |s.seg.sent| ==> s.seg.rx.log[j] == Some(s.seg.sent[j])
  }

  /** Of each channel, everything pushed, if all its fragments have been sent. */
  ghost predicate Complete(s: System, us: seq<Packet>, rs: seq<Packet>) {
    && (s.queues.rel.maxAck == |FragmentizeAll(s.relPushed, S.FRAGMENT_SIZE)| ==> rs == s.relPushed)
    && (s.queues.unrel.next == |FragmentizeAll(s.unrelPushed, S.FRAGMENT_SIZE)| ==> us == s.unrelPushed)
  }

  lemma {:induction false} PayloadsAreCargo(log: seq<Option<R.Segment>>, sent: seq<R.Segment>,
                                            cargo: seq<seq<Datagram>>)
    requires CargoOf(sent, cargo) && |log| == |sent|
    requires forall j :: 0 <= j < |sent| ==> log[j] == Some(sent[j])
    ensures DecodeEach(R.Payloads(log)) == Flat(cargo)
    decreases |log|
  {
    if log != [] {
      hide DecodeAll;
      var n := |log| - 1;
      PayloadsAreCargo(log[..n], sent[..n], cargo[..n]);
      assert R.Payloads(log) == R.Payloads(log[..n]) + [sent[n].data];
      assert R.Payloads(log)[..|R.Payloads(log)| - 1] == R.Payloads(log[..n]);
    }
  }

  /** In every run of one direction in which every segment sent has arrived, and no sync was needed: the reliable
      receiver is as far as the sender ever got, so all its packets have been returned once all their
      fragments have been sent; and so have those of the unreliable channel, unless some expired unsent. */
  lemma {:induction false} NothingLostAllArrives(actions: seq<Action>)
    requires NoSync(actions) && AllIn(After(actions))
    ensures var s := After(actions);
      && s.mail.rel.next == s.queues.rel.maxAck
      && exists us, rs :: Merge(s.mail.packets, us, rs) && Complete(s, us, rs)
  {
    RunSends(actions);
    RunHears(actions);
    var s, cargo := After(actions), Cargo(actions);
    PayloadsAreCargo(s.seg.rx.log, s.seg.sent, cargo);
    TakeAllApart(NO_MAIL, Flat(cargo));
    AllReturned(s, Flat(cargo));
  }

  lemma {:induction false} AllReturned(s: System, out: seq<Datagram>)
    requires QueuesHold(s.queues, out, FragmentizeAll(s.unrelPushed, S.FRAGMENT_SIZE),
                        FragmentizeAll(s.relPushed, S.FRAGMENT_SIZE))
    ensures var us, rs := HearLoose(NO_MAIL.unrel, S.Of(out, true)).1, Hear(NO_MAIL.rel, S.Of(out, false)).1;
      && Complete(s, us, rs)
      && Hear(NO_MAIL.rel, S.Of(out, false)).0.next == s.queues.rel.maxAck
  {
    hide Hear, HearLoose, FragmentizeAll, Assemble;
    var loose, bound := FragmentizeAll(s.unrelPushed, S.FRAGMENT_SIZE), FragmentizeAll(s.relPushed, S.FRAGMENT_SIZE);
    assert bound[..|bound|] == bound;
    AssembleFragmentizeAll(s.relPushed, S.FRAGMENT_SIZE);
    if s.queues.unrel.next == |loose| {
      LooseIsTakenIn(NO_MAIL.unrel, S.Of(out, true));
      assert A.Fronts(s.queues.unrel.queue) == [];
      assert FragmentsOf(S.Of(out, true)) == loose;
      A.AllPacketsReturned(NO_MAIL.unrel, 0, s.unrelPushed, S.FRAGMENT_SIZE);
    }
  }
}
