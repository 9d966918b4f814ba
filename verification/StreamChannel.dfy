/** Two endpoints end to end: whatever the queues hold leaves in segments, the segment layer hands the
    segments over, and the two receivers put the packets together again. */
module StreamChannel {
  import opened Words
  import opened Bits
  import opened Fragments
  import opened Codec
  import opened Mailbox
  import F = Frame
  import P = Prio
  import S = Sending
  import G = SegmentChannel
  import R = SegmentRx
  import T = SegmentTx
  import U = UnreliableChannel
  import L = ReliableChannel
  import Unreliable
  import Reliable

  const WINDOW: nat := 4096

  /** A segment holds at most this many datagrams. */
  const MAX_DATAGRAMS: nat := 210

  /** One direction of a connection: the sending queues, the segment layer between the endpoints, the
      receiving buffers, what the user has enqueued, and the acknowledgements of reliable fragments on their
      way. `sentAt[j]` is how many unreliable fragments had been sent before the j-th segment, and `horizon`
      that number where the settled segments ended when the unreliable receiver last changed. Neither end
      reads these two. */
  datatype System = System(
    queues: S.Queues,
    seg: G.System,
    mail: Mail,
    unrelPushed: seq<Packet>,
    relPushed: seq<Packet>,
    relAcks: set<nat>,
    sentAt: seq<nat>,
    horizon: nat)

  datatype Action =
    | Enqueue(packet: Packet, mode: S.SendMode, now: u64)
    | Expire(now: u64)
    | SendSegment(config: P.Config, now: u64, space: nat, nonce: bool)
    | Timeout
    | DeliverSegment(k: nat)
    | EmitAck(ack: G.Ack, withRel: bool)
    | DeliverAck(ack: G.Ack, rel: Option<nat>)
    | EmitSync
    | DeliverSync(k: nat)

  ghost predicate Shape(s: System) {
    G.Inv(s.seg) && s.queues.Valid()
  }

  function SentBefore(s: System, j: nat): nat {
    if j < |s.sentAt| then s.sentAt[j] else s.queues.unrel.next
  }

  /** The position behind the fragment last taken: the latest up to the horizon which goes under the
      identifier the receiver awaits. */
  function Awaited(baseId: u32, horizon: nat): int {
    horizon - WrapSub(Wire(horizon), baseId)
  }

  /** A lap of unreliable fragments may not go by between two the receiver could join. */
  ghost predicate InLap(s: System, settled: nat) {
    s.mail.unrel.build.Some? ==> SentBefore(s, settled) <= Awaited(s.mail.unrel.baseId, s.horizon) + LAP
  }

  function Deliver(s: System, k: nat): R.Rx
    requires G.Inv(s.seg) && s.seg.start <= k < s.seg.tx.next
  {
    s.seg.rx.Receive(Wire(k), s.seg.sent[k - s.seg.start])
  }

  ghost predicate Enabled(s: System, a: Action)
    requires Shape(s)
  {
    match a
    case Enqueue(_, mode, now) => mode.Unreliable? ==> now + mode.timeout + 1 < 0x1_0000_0000_0000_0000
    case Expire(_) => true
    case SendSegment(config, now, space, _) =>
      |config.weights| == P.CHANNELS && s.seg.tx.CanSend() && space <= F.FRAME_SIZE_MAX
    case Timeout => true
    case DeliverSegment(k) => G.Enabled(s.seg, G.DeliverSegment(k)) && InLap(s, |Deliver(s, k).log|)
    case EmitAck(ack, _) => G.Enabled(s.seg, G.EmitAck(ack))
    case DeliverAck(ack, rel) =>
      && G.Enabled(s.seg, G.DeliverAck(ack))
      && (rel.Some? ==> rel.value in s.relAcks && s.queues.rel.maxAck <= rel.value + L.MAX_AGE)
    case EmitSync => true
    case DeliverSync(k) => G.Enabled(s.seg, G.DeliverSync(k)) && InLap(s, |s.seg.rx.Sync(Wire(k)).log|)
  }

  /** The receiving buffers after the segments settled since `log`. */
  function Taken(s: System, rx: R.Rx): System {
    var mail := TakeAll(s.mail, DecodeEach(R.Handed(s.seg.rx.log, rx.log)));
    s.(mail := mail, horizon := if mail.unrel == s.mail.unrel then s.horizon else SentBefore(s, |rx.log|))
  }

  ghost function Step(s: System, a: Action): System
    requires Shape(s) && Enabled(s, a)
  {
    match a
    case Enqueue(packet, mode, now) =>
      var queued := s.(queues := s.queues.Enqueue(packet, mode, now));
      if mode.Reliable? then queued.(relPushed := s.relPushed + [packet])
      else queued.(unrelPushed := s.unrelPushed + [packet])
    case Expire(now) => s.(queues := s.queues.Expire(now))
    case SendSegment(config, now, space, nonce) =>
      var (queues, ds) := S.Filled(s.queues, config, now, space);
      s.(queues := queues, sentAt := s.sentAt + [queues.unrel.next],
         seg := G.Step(s.seg, G.Send(R.Segment(nonce, EncodeAll(ds)), S.DataSize(ds))))
    case Timeout => s.(queues := s.queues.Rewind())
    case DeliverSegment(k) => Taken(s, Deliver(s, k)).(seg := G.Step(s.seg, G.DeliverSegment(k)))
    case EmitAck(ack, withRel) =>
      s.(seg := G.Step(s.seg, G.EmitAck(ack)), relAcks := s.relAcks + if withRel then {s.mail.rel.next} else {})
    case DeliverAck(ack, rel) =>
      var wired: Option<u32> := if rel.Some? then Some(Wire(rel.value)) else None;
      s.(seg := G.Step(s.seg, G.DeliverAck(ack)), queues := s.queues.Acknowledge(wired))
    case EmitSync => s.(seg := G.Step(s.seg, G.EmitSync))
    case DeliverSync(k) =>
      var t := Taken(s, s.seg.rx.Sync(Wire(k)));
      t.(seg := G.Step(s.seg, G.DeliverSync(k)), mail := t.mail.(unrel := t.mail.unrel.Reset()))
  }

  function Init(): System {
    System(S.Queues(Unreliable.Tx([], 0), Reliable.Tx(0, 0, 0, [], WINDOW, 0), [0, 0, 0, 0]),
           G.Init(0, WINDOW, WINDOW), Mail(Unreliable.Rx(0, None), Reliable.Rx(0, None), []), [], [], {}, [0], 0)
  }

  lemma {:induction false} StepKeepsShape(s: System, a: Action)
    requires Shape(s) && Enabled(s, a)
    ensures Shape(Step(s, a))
  {
    hide G.Inv, G.Enabled, G.Step, TakeAll, Deliver;
    match a
    case Enqueue(packet, mode, now) => S.EnqueueKeepsValid(s.queues, packet, mode, now);
    case Expire(now) => S.ExpireKeepsValid(s.queues, now);
    case SendSegment(config, now, space, nonce) =>
      var ds := S.Filled(s.queues, config, now, space).1;
      SendEnabled(s.seg, R.Segment(nonce, EncodeAll(ds)), S.DataSize(ds));
      G.StepKeepsInv(s.seg, G.Send(R.Segment(nonce, EncodeAll(ds)), S.DataSize(ds)));
    case Timeout => Reliable.TxStepsKeepValid(s.queues.rel, [], S.FRAGMENT_SIZE, 0);
    case DeliverSegment(k) => G.StepKeepsInv(s.seg, G.DeliverSegment(k));
    case EmitAck(ack, _) => G.StepKeepsInv(s.seg, G.EmitAck(ack));
    case DeliverAck(ack, rel) =>
      G.StepKeepsInv(s.seg, G.DeliverAck(ack));
      if rel.Some? {
        S.AcknowledgeKeepsValid(s.queues, Wire(rel.value));
      }
    case EmitSync => G.StepKeepsInv(s.seg, G.EmitSync);
    case DeliverSync(k) => G.StepKeepsInv(s.seg, G.DeliverSync(k));
  }

  lemma {:induction false} SendEnabled(seg: G.System, segment: R.Segment, bytes: nat)
    requires seg.tx.CanSend()
    ensures G.Enabled(seg, G.Send(segment, bytes))
  {
  }

  /** The state after a run; an action which is not enabled changes nothing. */
  ghost function After(actions: seq<Action>): (s: System)
    ensures Shape(s)
    decreases |actions|
  {
    if actions == [] then
      InitHasShape();
      Init()
    else
      var s := After(actions[..|actions| - 1]);
      var a := actions[|actions| - 1];
      if Enabled(s, a) then StepKeepsShape(s, a); Step(s, a) else s
  }

  lemma {:induction false} InitHasShape()
    ensures Shape(Init())
  {
    hide G.Inv, G.Init;
    G.InitHolds(0, WINDOW, WINDOW);
  }

  // ---- what each segment carries ----

  /** A datagram by where it comes from: a fragment of the unreliable channel by its position among all
      that were sent, one of the reliable channel by its index. */
  datatype Parcel = Loose(position: nat, fragment: Fragment) | Bound(frame: L.DataFrame)

  function AsSent(p: Parcel): Datagram {
    match p
    case Loose(i, f) => S.AsDatagram(f, i, true)
    case Bound(m) => S.AsDatagram(m.fragment, m.index, false)
  }

  function AllSent(ps: seq<Parcel>): (ds: seq<Datagram>)
    ensures |ds| == |ps|
    decreases |ps|
  {
    if ps == [] then [] else [AsSent(ps[0])] + AllSent(ps[1..])
  }

  /** The unreliable fragments are those from one position up to another, in order; the reliable ones are
      among those sent. */
  ghost predicate Packed(ps: seq<Parcel>, net: seq<Fragment>, data: set<L.DataFrame>, from: nat, to: nat)
    decreases |ps|
  {
    if ps == [] then from == to
    else
      match ps[0]
      case Loose(i, f) => i == from < to <= |net| && f == net[i] && Packed(ps[1..], net, data, from + 1, to)
      case Bound(m) => m in data && Packed(ps[1..], net, data, from, to)
  }

  lemma {:induction false} PackedGrows(ps: seq<Parcel>, net: seq<Fragment>, data: set<L.DataFrame>, from: nat, to: nat,
                                       net': seq<Fragment>, data': set<L.DataFrame>)
    requires Packed(ps, net, data, from, to) && net <= net' && data <= data'
    ensures Packed(ps, net', data', from, to)
    decreases |ps|
  {
    if ps != [] {
      PackedGrows(ps[1..], net, data, if ps[0].Loose? then from + 1 else from, to, net', data');
    }
  }

  lemma {:induction false} PackedLength(ps: seq<Parcel>, net: seq<Fragment>, data: set<L.DataFrame>, from: nat, to: nat)
    requires Packed(ps, net, data, from, to)
    ensures from <= to <= from + |ps|
    decreases |ps|
  {
    if ps != [] {
      PackedLength(ps[1..], net, data, if ps[0].Loose? then from + 1 else from, to);
    }
  }

  /** The reliable fragments lie within a window of the furthest one sent by then. */
  ghost predicate Near(ps: seq<Parcel>, top: nat) {
    forall p :: p in ps && p.Bound? ==> p.frame.index < top <= p.frame.index + WINDOW
  }

  /** How many unreliable fragments have been sent, and how far the reliable ones have got. */
  datatype Mark = Mark(unrel: nat, rel: nat)

  /** A segment and what it carries; `before` and `after` are the marks on either side of it. */
  ghost predicate Carries(segment: R.Segment, ps: seq<Parcel>, net: seq<Fragment>, data: set<L.DataFrame>,
                          before: Mark, after: Mark) {
    && Packed(ps, net, data, before.unrel, after.unrel) && after.unrel <= before.unrel + MAX_DATAGRAMS
    && before.rel <= after.rel && Near(ps, after.rel)
    && DecodeAll(segment.data) == AllSent(ps)
  }

  /** What is true of a state but not part of it: the two channels as their own modules know them, and what
      every segment carries. */
  datatype View = View(u: U.System, r: L.System, cargo: seq<seq<Parcel>>, marks: seq<Mark>)

  ghost predicate CargoHolds(sent: seq<R.Segment>, v: View) {
    && |v.cargo| == |sent| && |v.marks| == |sent| + 1
    && forall j :: 0 <= j < |sent| ==>
         Carries(sent[j], v.cargo[j], v.u.net, v.r.data, v.marks[j], v.marks[j + 1])
  }

  /** Packets of two channels, each in order. */
  ghost predicate Merge(ps: seq<Packet>, a: seq<Packet>, b: seq<Packet>)
    decreases |ps|
  {
    if ps == [] then a == [] && b == []
    else
      var front, last := ps[..|ps| - 1], ps[|ps| - 1];
      || (a != [] && a[|a| - 1] == last && Merge(front, a[..|a| - 1], b))
      || (b != [] && b[|b| - 1] == last && Merge(front, a, b[..|b| - 1]))
  }

  lemma {:induction false} MergeMore(ps: seq<Packet>, a: seq<Packet>, b: seq<Packet>, more: seq<Packet>)
    requires Merge(ps, a, b) && |more| <= 1
    ensures Merge(ps + more, a + more, b) && Merge(ps + more, a, b + more)
  {
    if more == [] {
      assert ps + more == ps && a + more == a && b + more == b;
    } else {
      assert (ps + more)[..|ps|] == ps && (a + more)[..|a|] == a && (b + more)[..|b|] == b;
    }
  }

  /** The two channels and the receiving buffers agree. */
  ghost predicate Agree(u: U.System, r: L.System, mail: Mail) {
    && U.Inv(u) && L.Inv(r) && u.size == r.size == S.FRAGMENT_SIZE && u.start == r.start == 0
    && r.tx.window == WINDOW
    && mail.unrel == u.rx && mail.rel == r.rx && Merge(mail.packets, u.delivered, r.delivered)
  }

  // ---- arrival ----

  /** What does not change on arrival. */
  ghost predicate SameSender(u: U.System, r: L.System, u': U.System, r': L.System) {
    && u'.net == u.net && u'.tx == u.tx && u'.packets == u.packets
    && r'.tx == r.tx && r'.data == r.data && r'.packets == r.packets && r'.acks == r.acks
  }

  lemma {:induction false} TakeLoose(u: U.System, r: L.System, mail: Mail, i: nat) returns (u': U.System)
    requires i < |u.net| && Agree(u, r, mail) && U.Enabled(u, U.Receive(i))
    ensures Agree(u', r, Take(mail, AsSent(Loose(i, u.net[i])))) && SameSender(u, r, u', r)
    ensures u'.seen == i + 1 && (u'.awaited == i + 1 || (u'.awaited == u.awaited && u'.rx == u.rx))
  {
    hide U.Inv, L.Inv;
    u' := U.Step(u, U.Receive(i));
    U.StepKeepsInv(u, U.Receive(i));
    var f := u.net[i];
    MergeMore(mail.packets, u.delivered, r.delivered, u.rx.Completed(Wire(i), f, u.size));
  }

  lemma {:induction false} TakeBound(u: U.System, r: L.System, mail: Mail, m: L.DataFrame) returns (r': L.System)
    requires Agree(u, r, mail) && m in r.data && r.rx.next <= m.index + WINDOW
    ensures Agree(u, r', Take(mail, AsSent(Bound(m)))) && SameSender(u, r, u, r')
    ensures r'.rx.next <= r.rx.next || r'.rx.next == m.index + 1
  {
    BoundEnabled(r, m);
    r' := L.Step(r, L.DeliverData(m));
    BoundNext(r, m);
    hide U.Inv, L.Inv;
    L.StepKeepsInv(r, L.DeliverData(m));
    MergeMore(mail.packets, u.delivered, r.delivered, r.rx.Completed(Wire(m.index), m.fragment, r.size));
  }

  /** A fragment close to the one expected next is young: the sender is at most a window ahead. */
  lemma {:induction false} BoundEnabled(r: L.System, m: L.DataFrame)
    requires L.Inv(r) && r.tx.window == WINDOW && m in r.data && r.rx.next <= m.index + WINDOW
    ensures L.Enabled(r, L.DeliverData(m)) && r.tx.Valid()
  {
  }

  lemma {:induction false} BoundNext(r: L.System, m: L.DataFrame)
    requires L.Inv(r) && r.tx.window == WINDOW && m in r.data && r.rx.next <= m.index + WINDOW
    ensures var rx := r.rx.Receive(Wire(m.index), m.fragment, r.size);
      rx.next <= r.rx.next || rx.next == m.index + 1
  {
    AllSizesValid(r.packets, r.size);
    L.TakeInKeeps(r.rx, r.delivered, r.start, L.Stream(r), m.index, r.size);
  }

  /** All that a segment carries, `end` being a position no fragment to come in the same call reaches:
      less than a lap behind the unreliable receiver. */
  lemma {:induction false} TakeParcels(u: U.System, r: L.System, mail: Mail, ps: seq<Parcel>, from: nat, to: nat,
                                       top: nat, end: nat)
    returns (u': U.System, r': L.System)
    requires Agree(u, r, mail) && Packed(ps, u.net, r.data, from, to) && Near(ps, top) && r.rx.next <= top
    requires u.seen <= from && to <= end <= from + LAP && (u.rx.build.Some? ==> end <= u.awaited + LAP)
    ensures Agree(u', r', TakeAll(mail, AllSent(ps))) && SameSender(u, r, u', r')
    ensures u'.seen <= to && r'.rx.next <= top && (u'.rx.build.Some? ==> end <= u'.awaited + LAP)
    ensures u'.awaited > from || (u'.awaited == u.awaited && u'.rx == u.rx)
    decreases |ps|
  {
    hide Agree, TakeAll, Take, AsSent;
    if ps == [] {
      u', r' := u, r;
      TakeAllNone(mail);
    } else {
      var p, rest := ps[0], ps[1..];
      PackedLength(ps, u.net, r.data, from, to);
      var d := AsSent(p);
      TakeAllFirst(mail, d, AllSent(rest));
      assert p in ps && forall q :: q in rest ==> q in ps;
      match p
      case Loose(i, f) =>
        var v := TakeLoose(u, r, mail, i);
        u', r' := TakeParcels(v, r, Take(mail, d), rest, from + 1, to, top, end);
      case Bound(m) =>
        var q := TakeBound(u, r, mail, m);
        u', r' := TakeParcels(u, q, Take(mail, d), rest, from, to, top, end);
    }
  }

  lemma {:induction false} TakeAllNone(mail: Mail)
    ensures TakeAll(mail, []) == mail
  {
  }

  lemma {:induction false} TakeAllFirst(mail: Mail, d: Datagram, ds: seq<Datagram>)
    ensures TakeAll(mail, [d] + ds) == TakeAll(Take(mail, d), ds)
  {
    TakeAllConcat(mail, [d], ds);
    assert [d][..0] == [];
    assert TakeAll(mail, [d]) == Take(TakeAll(mail, []), d);
  }

  /** What a stretch of the log handed over. */
  function Handed(log: seq<Option<R.Segment>>, a: nat, b: nat): seq<Datagram>
    requires a <= b <= |log|
  {
    DecodeEach(R.Payloads(log[a..b]))
  }

  lemma {:induction false} HandedNext(log: seq<Option<R.Segment>>, a: nat, b: nat)
    requires a <= b < |log|
    ensures Handed(log, a, b + 1) == Handed(log, a, b) + if log[b].Some? then DecodeAll(log[b].value.data) else []
  {
    var before, after := R.Payloads(log[a..b]), R.Payloads(log[a..b + 1]);
    assert log[a..b + 1][..b - a] == log[a..b];
    if log[b].Some? {
      assert after == before + [log[b].value.data];
      assert after[..|before|] == before;
    } else {
      assert after == before;
    }
  }

  /** The log settles only what was sent. */
  ghost predicate LogHolds(log: seq<Option<R.Segment>>, sent: seq<R.Segment>) {
    |log| <= |sent| && forall j :: 0 <= j < |log| ==> log[j] in {None, Some(sent[j])}
  }

  lemma {:induction false} TakeLog(v: View, sent: seq<R.Segment>, mail: Mail, log: seq<Option<R.Segment>>, a: nat,
                                   b: nat, end: nat)
    returns (u': U.System, r': L.System)
    requires Agree(v.u, v.r, mail) && CargoHolds(sent, v) && LogHolds(log, sent) && a <= b <= |log|
    requires v.u.seen <= v.marks[a].unrel && v.r.rx.next <= v.marks[a].rel
    requires v.marks[b].unrel <= end <= v.marks[a].unrel + LAP && (v.u.rx.build.Some? ==> end <= v.u.awaited + LAP)
    ensures Agree(u', r', TakeAll(mail, Handed(log, a, b))) && SameSender(v.u, v.r, u', r')
    ensures u'.seen <= v.marks[b].unrel && r'.rx.next <= v.marks[b].rel
    ensures u'.rx.build.Some? ==> end <= u'.awaited + LAP
    ensures u'.awaited > v.marks[a].unrel || (u'.awaited == v.u.awaited && u'.rx == v.u.rx)
    decreases b
  {
    hide Agree, TakeAll, DecodeAll, Packed;
    if b == a {
      u', r' := v.u, v.r;
      HandedNothing(log, a);
      TakeAllNone(mail);
    } else {
      var j := b - 1;
      MarksRise(sent, v, a, j);
      assert Carries(sent[j], v.cargo[j], v.u.net, v.r.data, v.marks[j], v.marks[b]);
      PackedLength(v.cargo[j], v.u.net, v.r.data, v.marks[j].unrel, v.marks[b].unrel);
      u', r' := TakeLog(v, sent, mail, log, a, j, end);
      HandedNext(log, a, j);
      if log[j].Some? {
        var before := TakeAll(mail, Handed(log, a, j));
        TakeAllConcat(mail, Handed(log, a, j), DecodeAll(log[j].value.data));
        u', r' := TakeParcels(u', r', before, v.cargo[j], v.marks[j].unrel, v.marks[b].unrel, v.marks[b].rel, end);
      } else {
        assert Handed(log, a, j) + [] == Handed(log, a, j);
      }
    }
  }

  lemma {:induction false} HandedNothing(log: seq<Option<R.Segment>>, a: nat)
    requires a <= |log|
    ensures Handed(log, a, a) == []
  {
    assert log[a..a] == [];
  }

  /** Marks only rise, and a segment holds only so many datagrams. */
  lemma {:induction false} MarksRise(sent: seq<R.Segment>, v: View, a: nat, b: nat)
    requires CargoHolds(sent, v) && a <= b <= |sent|
    ensures v.marks[a].unrel <= v.marks[b].unrel <= v.marks[a].unrel + (b - a) * MAX_DATAGRAMS
    ensures v.marks[a].rel <= v.marks[b].rel
    decreases b
  {
    if a < b {
      MarksRise(sent, v, a, b - 1);
      assert Carries(sent[b - 1], v.cargo[b - 1], v.u.net, v.r.data, v.marks[b - 1], v.marks[b]);
      PackedLength(v.cargo[b - 1], v.u.net, v.r.data, v.marks[b - 1].unrel, v.marks[b].unrel);
    }
  }

  // ---- departure ----

  /** What does not change on departure. */
  ghost predicate SameReceiver(u: U.System, r: L.System, u': U.System, r': L.System) {
    && u' == u.(tx := u'.tx, queued := u'.queued, net := u'.net, sent := u'.sent) && u.net <= u'.net
    && r' == r.(tx := r'.tx, data := r'.data) && r.data <= r'.data
    && r'.tx.base == r.tx.base && r'.tx.window == r.tx.window && r.tx.maxAck <= r'.tx.maxAck
  }

  /** The queues as they are in the two channels. */
  ghost predicate Queued(u: U.System, r: L.System, q: S.Queues) {
    U.Inv(u) && L.Inv(r) && q.Valid() && q.unrel == u.tx && q.rel == r.tx && u.tx.next == |u.net|
  }

  lemma {:induction false} ShipOne(u: U.System, r: L.System, q: S.Queues, config: P.Config, now: u64, space: int)
    returns (u': U.System, r': L.System, p: Parcel)
    requires Queued(u, r, q) && |config.weights| == P.CHANNELS && S.FillOne(q, config, now, space).1.Some?
    ensures var (q', d) := S.FillOne(q, config, now, space); Queued(u', r', q') && AsSent(p) == d.value
    ensures SameReceiver(u, r, u', r')
    ensures match p
      case Loose(i, f) => i == |u.net| && u'.net == u.net + [f]
      case Bound(m) => u'.net == u.net && m in r'.data && r.tx.base <= m.index < r'.tx.maxAck
  {
    hide U.Inv, L.Inv, P.Charge, P.Choice;
    S.ExpireKeepsValid(q, now);
    var due := q.Expire(now);
    var v := ExpireBoth(u, now);
    if due.Next() == Some(S.UNREL) {
      u', r' := U.Step(v, U.Send), r;
      U.StepKeepsInv(v, U.Send);
      p := Loose(|v.net|, v.tx.queue[0].fragment);
    } else {
      p := Bound(L.DataFrame(r.tx.next, r.tx.queue[r.tx.next - r.tx.base]));
      r' := SendBound(r);
      u' := v;
    }
  }

  lemma {:induction false} Ships(u: U.System, r: L.System, q: S.Queues, config: P.Config, now: u64, space: int)
    returns (u': U.System, r': L.System, ps: seq<Parcel>)
    requires Queued(u, r, q) && |config.weights| == P.CHANNELS
    ensures var (q', ds) := S.Filled(q, config, now, space); Queued(u', r', q') && ds == AllSent(ps)
    ensures SameReceiver(u, r, u', r')
    ensures Packed(ps, u'.net, r'.data, |u.net|, |u'.net|)
    ensures forall p :: p in ps && p.Bound? ==> r.tx.base <= p.frame.index < r'.tx.maxAck
    decreases q.Size()
  {
    hide U.Inv, L.Inv, S.Filled, S.FillOne, AsSent;
    S.FilledStep(q, config, now, space);
    var (next, written) := S.FillOne(q, config, now, space);
    if written.None? {
      S.ExpireKeepsValid(q, now);
      NothingShipped(q, config, now, space);
      u' := ExpireBoth(u, now);
      r', ps := r, [];
    } else {
      var v, x, p := ShipOne(u, r, q, config, now, space);
      var rest;
      u', r', rest := Ships(v, x, next, config, now, space - DatagramSize(written.value));
      ps := [p] + rest;
      assert ps[1..] == rest && ps[0] == p;
    }
  }

  lemma {:induction false} NothingShipped(q: S.Queues, config: P.Config, now: u64, space: int)
    requires q.Valid() && |config.weights| == P.CHANNELS && S.FillOne(q, config, now, space).1.None?
    ensures S.FillOne(q, config, now, space).0 == q.Expire(now)
  {
  }

  lemma {:induction false} ExpireBoth(u: U.System, now: u64) returns (v: U.System)
    requires U.Inv(u)
    ensures U.Inv(v) && v == u.(tx := u.tx.Expire(now), queued := v.queued)
  {
    v := U.Step(u, U.Expire(now));
    U.StepKeepsInv(u, U.Expire(now));
  }

  lemma {:induction false} SendBound(r: L.System) returns (x: L.System)
    requires L.Inv(r) && r.tx.CanSend()
    ensures var m := L.DataFrame(r.tx.next, r.tx.queue[r.tx.next - r.tx.base]);
      L.Inv(x) && x == r.(tx := r.tx.Send(), data := r.data + {m})
    ensures r.tx.base <= r.tx.next < x.tx.maxAck && r.tx.maxAck <= x.tx.maxAck
  {
    hide L.Inv, L.Stream;
    SendableNow(r);
    L.StepKeepsInv(r, L.Send);
    x := L.Step(r, L.Send);
  }

  lemma {:induction false} SendableNow(r: L.System)
    requires L.Inv(r)
    ensures r.tx.Valid() && r.size > 0
  {
  }

  lemma {:induction false} FewDatagrams(ds: seq<Datagram>)
    ensures DATAGRAM_HEADER_SIZE * |ds| <= |EncodeAll(ds)|
    decreases |ds|
  {
    if ds != [] {
      FewDatagrams(ds[1..]);
    }
  }

  // ---- what every step keeps ----

  /** The two channels and the queues agree, and know what the user has enqueued. */
  ghost predicate Sends(s: System, v: View) {
    && v.u.tx == s.queues.unrel && v.u.tx.next == |v.u.net| && v.r.tx == s.queues.rel
    && v.u.packets == s.unrelPushed && v.r.packets == s.relPushed && v.r.acks == s.relAcks
  }

  ghost predicate Marked(v: View, sent: nat, settled: nat) {
    && settled <= sent && |v.marks| == sent + 1
    && v.marks[sent] == Mark(|v.u.net|, v.r.tx.maxAck)
    && v.u.seen <= v.marks[settled].unrel && v.r.rx.next <= v.marks[settled].rel
  }

  ghost predicate Located(s: System, v: View) {
    && |s.sentAt| == |v.marks| && (forall j :: 0 <= j < |v.marks| ==> s.sentAt[j] == v.marks[j].unrel)
    && (v.u.rx.build.Some? ==> Awaited(v.u.rx.baseId, s.horizon) <= v.u.awaited)
  }

  ghost predicate Inv(s: System, v: View) {
    && Shape(s) && Agree(v.u, v.r, s.mail) && Sends(s, v)
    && s.seg.start == 0 && s.seg.rx.size == WINDOW
    && CargoHolds(s.seg.sent, v)
    && Marked(v, |s.seg.sent|, |s.seg.rx.log|) && Located(s, v)
  }

  lemma {:induction false} LogOf(seg: G.System)
    requires G.Inv(seg) && seg.start == 0
    ensures LogHolds(seg.rx.log, seg.sent) && seg.rx.Valid() && |seg.sent| == seg.tx.next
  {
  }

  lemma {:induction false} InLine(line: seq<R.Numbered>, lo: nat, hi: nat, p: R.Numbered)
    requires R.Sorted(line, lo, hi) && p in line
    ensures p.index < hi
    decreases |line|
  {
    if p != line[0] {
      InLine(line[1..], line[0].index + 1, hi, p);
    }
  }

  /** One call settles at most a window of segments. */
  lemma {:induction false} SettlesInWindow(rx: R.Rx, id: u32, segment: R.Segment)
    requires rx.Valid()
    ensures rx.log <= rx.Receive(id, segment).log && |rx.Receive(id, segment).log| <= |rx.log| + rx.size
    ensures rx.log <= rx.Sync(id).log && |rx.Sync(id).log| <= |rx.log| + rx.size
    ensures rx.Receive(id, segment).size == rx.Sync(id).size == rx.size
  {
    hide R.Insert, R.Has;
    if rx.Syncs(id) {
      R.SyncAccounts(rx, id);
    }
    if rx.Takes(id) {
      var p := R.Numbered(Unwrap(|rx.log|, id), segment);
      UnwrapWire(|rx.log|, id);
      R.ReceiveAccounts(rx, id, segment);
      R.SortedFrom(rx.pending, |rx.log| + 1, |rx.log|, |rx.log| + rx.size);
      R.InsertSorted(rx.pending, |rx.log|, |rx.log| + rx.size, p);
      var line, t := R.Insert(rx.pending, p), rx.Receive(id, segment);
      if t.log != rx.log {
        var q :| q in line && q.index == |t.log| - 1;
        InLine(line, |rx.log|, |rx.log| + rx.size, q);
      }
    }
  }

  /** The order and the age of the fragments follow from the segment layer's. */
  lemma {:induction false} SettleKeeps(s: System, v: View, rx: R.Rx) returns (v': View)
    requires Inv(s, v) && InLap(s, |rx.log|) && LogHolds(rx.log, s.seg.sent)
    requires s.seg.rx.log <= rx.log && |rx.log| <= |s.seg.rx.log| + WINDOW && |rx.log| <= |s.seg.sent|
    ensures var t := Taken(s, rx);
      && Agree(v'.u, v'.r, t.mail) && Sends(s, v') && CargoHolds(s.seg.sent, v')
      && Marked(v', |s.seg.sent|, |rx.log|) && Located(t, v') && v'.marks == v.marks
  {
    hide Shape, Agree, TakeAll, DecodeEach, CargoHolds, LogHolds, Awaited;
    var a, b, sent := |s.seg.rx.log|, |rx.log|, s.seg.sent;
    Receivers(v.u, v.r, s.mail);
    SettledRise(sent, v, a, b);
    var end := v.marks[b].unrel;
    assert rx.log[a..b] == rx.log[a..];
    assert R.Handed(s.seg.rx.log, rx.log) == R.Payloads(rx.log[a..b]);
    var u', r' := TakeLog(v, sent, s.mail, rx.log, a, b, end);
    Receivers(u', r', TakeAll(s.mail, Handed(rx.log, a, b)));
    v' := View(u', r', v.cargo, v.marks);
    CargoSame(sent, v, v');
    if u'.rx.build.Some? && u'.rx != v.u.rx {
      AwaitedIs(u'.awaited, end);
    }
  }

  /** A position is told by its identifier from any horizon less than a lap on. */
  lemma {:induction false} AwaitedIs(position: nat, horizon: nat)
    requires position <= horizon < position + LAP
    ensures Awaited(Wire(position), horizon) == position
  {
    WireDistance(position, horizon);
  }

  /** Less than a lap of fragments fits into the segments one call settles. */
  lemma {:induction false} SettledRise(sent: seq<R.Segment>, v: View, a: nat, b: nat)
    requires CargoHolds(sent, v) && |v.marks| == |sent| + 1 && a <= b <= a + WINDOW && b <= |sent|
    ensures v.marks[a].unrel <= v.marks[b].unrel < v.marks[a].unrel + LAP
    ensures v.marks[a].rel <= v.marks[b].rel
  {
    hide CargoHolds;
    MarksRise(sent, v, a, b);
    assert (b - a) * MAX_DATAGRAMS < LAP;
  }

  lemma {:induction false} CargoSame(sent: seq<R.Segment>, v: View, v': View)
    requires CargoHolds(sent, v) && v'.cargo == v.cargo && v'.marks == v.marks
    requires v'.u.net == v.u.net && v'.r.data == v.r.data
    ensures CargoHolds(sent, v')
  {
  }

  lemma {:induction false} Receivers(u: U.System, r: L.System, mail: Mail)
    requires Agree(u, r, mail)
    ensures mail.unrel == u.rx && mail.rel == r.rx
    ensures u.rx.build.Some? ==> u.rx.baseId == Wire(u.awaited) && u.awaited <= u.seen
  {
  }

  /** A step of one side which neither sends nor settles segments. */
  lemma {:induction false} Unmoved(s: System, v: View, s': System, v': View)
    requires Inv(s, v) && Shape(s') && Agree(v'.u, v'.r, s'.mail) && Sends(s', v')
    requires s'.seg.start == 0 && s'.seg.sent == s.seg.sent && s'.seg.rx == s.seg.rx
    requires s'.sentAt == s.sentAt && s'.horizon == s.horizon
    requires v'.cargo == v.cargo && v'.marks == v.marks && v'.u.net == v.u.net && v'.r.data == v.r.data
    requires v'.u.rx == v.u.rx && v'.u.seen == v.u.seen && v'.u.awaited == v.u.awaited
    requires v'.r.rx == v.r.rx && v'.r.tx.maxAck == v.r.tx.maxAck
    ensures Inv(s', v')
  {
    hide Shape, Agree, Sends, CargoHolds;
    CargoSame(s.seg.sent, v, v');
  }

  lemma {:induction false} EnqueueKeeps(s: System, v: View, packet: Packet, mode: S.SendMode, now: u64)
    returns (v': View)
    requires Inv(s, v) && Enabled(s, Enqueue(packet, mode, now))
    ensures Inv(Step(s, Enqueue(packet, mode, now)), v')
  {
    hide G.Inv, U.Inv, L.Inv, CargoHolds, Merge;
    StepKeepsShape(s, Enqueue(packet, mode, now));
    match mode {
      case Reliable =>
        v' := v.(r := L.Step(v.r, L.Push(packet)));
        L.StepKeepsInv(v.r, L.Push(packet));
      case Unreliable(timeout) =>
        v' := v.(u := U.Step(v.u, U.Push(packet, now + timeout + 1)));
        U.StepKeepsInv(v.u, U.Push(packet, now + timeout + 1));
    }
    Unmoved(s, v, Step(s, Enqueue(packet, mode, now)), v');
  }

  lemma {:induction false} ExpireKeeps(s: System, v: View, now: u64) returns (v': View)
    requires Inv(s, v)
    ensures Inv(Step(s, Expire(now)), v')
  {
    hide G.Inv, U.Inv, L.Inv, CargoHolds, Merge;
    StepKeepsShape(s, Expire(now));
    var u' := ExpireBoth(v.u, now);
    v' := v.(u := u');
    Unmoved(s, v, Step(s, Expire(now)), v');
  }

  lemma {:induction false} TimeoutKeeps(s: System, v: View) returns (v': View)
    requires Inv(s, v)
    ensures Inv(Step(s, Timeout), v')
  {
    hide G.Inv, U.Inv, L.Inv, CargoHolds, Merge;
    StepKeepsShape(s, Timeout);
    SendableNow(v.r);
    v' := v.(r := L.Step(v.r, L.Timeout));
    L.StepKeepsInv(v.r, L.Timeout);
    Unmoved(s, v, Step(s, Timeout), v');
  }

  lemma {:induction false} EmitAckKeeps(s: System, v: View, ack: G.Ack, withRel: bool) returns (v': View)
    requires Inv(s, v) && Enabled(s, EmitAck(ack, withRel))
    ensures Inv(Step(s, EmitAck(ack, withRel)), v')
  {
    hide G.Inv, U.Inv, L.Inv, CargoHolds, Merge;
    StepKeepsShape(s, EmitAck(ack, withRel));
    SendableNow(v.r);
    v' := v;
    if withRel {
      v' := v.(r := L.Step(v.r, L.EmitAck));
      L.StepKeepsInv(v.r, L.EmitAck);
    }
    Unmoved(s, v, Step(s, EmitAck(ack, withRel)), v');
  }

  lemma {:induction false} DeliverAckKeeps(s: System, v: View, ack: G.Ack, rel: Option<nat>) returns (v': View)
    requires Inv(s, v) && Enabled(s, DeliverAck(ack, rel))
    ensures Inv(Step(s, DeliverAck(ack, rel)), v')
  {
    hide G.Inv, U.Inv, L.Inv, CargoHolds, Merge;
    StepKeepsShape(s, DeliverAck(ack, rel));
    SendableNow(v.r);
    v' := v;
    if rel.Some? {
      v' := v.(r := L.Step(v.r, L.DeliverAck(rel.value)));
      L.StepKeepsInv(v.r, L.DeliverAck(rel.value));
      L.AckMeaning(v.r, rel.value);
    }
    Unmoved(s, v, Step(s, DeliverAck(ack, rel)), v');
  }

  lemma {:induction false} DeliverKeeps(s: System, v: View, k: nat) returns (v': View)
    requires Inv(s, v) && Enabled(s, DeliverSegment(k))
    ensures Inv(Step(s, DeliverSegment(k)), v')
  {
    hide G.Inv, Agree, CargoHolds, LogHolds, TakeAll, R.Rx.Receive;
    StepKeepsShape(s, DeliverSegment(k));
    var t := Step(s, DeliverSegment(k));
    LogOf(t.seg);
    LogOf(s.seg);
    LogFits(t.seg.rx.log, s.seg.sent);
    SettlesInWindow(s.seg.rx, Wire(k), s.seg.sent[k]);
    v' := SettleKeeps(s, v, Deliver(s, k));
  }

  lemma {:induction false} LogFits(log: seq<Option<R.Segment>>, sent: seq<R.Segment>)
    requires LogHolds(log, sent)
    ensures |log| <= |sent|
  {
  }

  lemma {:induction false} SyncKeeps(s: System, v: View, k: nat) returns (v': View)
    requires Inv(s, v) && Enabled(s, DeliverSync(k))
    ensures Inv(Step(s, DeliverSync(k)), v')
  {
    hide G.Inv, Agree, CargoHolds, LogHolds, TakeAll, R.Rx.Sync;
    StepKeepsShape(s, DeliverSync(k));
    var t := Step(s, DeliverSync(k));
    LogOf(t.seg);
    LogOf(s.seg);
    LogFits(t.seg.rx.log, s.seg.sent);
    SettlesInWindow(s.seg.rx, Wire(k), R.Segment(false, []));
    var before := SettleKeeps(s, v, s.seg.rx.Sync(Wire(k)));
    var mail := Taken(s, s.seg.rx.Sync(Wire(k))).mail;
    v' := before.(u := before.u.(rx := before.u.rx.Reset()));
    ResetKeeps(before, mail);
    CargoSame(s.seg.sent, before, v');
  }

  lemma {:induction false} ResetKeeps(v: View, mail: Mail)
    requires Agree(v.u, v.r, mail)
    ensures Agree(v.u.(rx := v.u.rx.Reset()), v.r, mail.(unrel := mail.unrel.Reset()))
    ensures v.u.rx.Reset().build.None?
  {
    U.StepKeepsInv(v.u, U.Reset);
  }

  /** What leaves the queues is packed into the next segment. */
  lemma {:induction false} CargoNext(sent: seq<R.Segment>, v: View, segment: R.Segment, ps: seq<Parcel>, v': View,
                                     top: Mark)
    requires CargoHolds(sent, v) && v.u.net <= v'.u.net && v.r.data <= v'.r.data
    requires v'.cargo == v.cargo + [ps] && v'.marks == v.marks + [top]
    requires Carries(segment, ps, v'.u.net, v'.r.data, v.marks[|sent|], top)
    ensures CargoHolds(sent + [segment], v')
  {
    forall j | 0 <= j < |sent|
      ensures Carries(sent[j], v.cargo[j], v'.u.net, v'.r.data, v.marks[j], v.marks[j + 1])
    {
      PackedGrows(v.cargo[j], v.u.net, v.r.data, v.marks[j].unrel, v.marks[j + 1].unrel, v'.u.net, v'.r.data);
    }
  }

  lemma {:induction false} Loaded(q: S.Queues, config: P.Config, now: u64, space: nat, nonce: bool, ps: seq<Parcel>)
    requires q.Valid() && |config.weights| == P.CHANNELS && space <= F.FRAME_SIZE_MAX
    requires S.Filled(q, config, now, space).1 == AllSent(ps)
    ensures var ds := S.Filled(q, config, now, space).1;
      DecodeAll(EncodeAll(ds)) == AllSent(ps) && |ps| <= MAX_DATAGRAMS
  {
    var ds := S.Filled(q, config, now, space).1;
    AllRoundTrip(ds);
    S.FilledToTheBrim(q, config, now, space);
    FewDatagrams(ds);
  }

  lemma {:induction false} SendKeeps(s: System, v: View, config: P.Config, now: u64, space: nat, nonce: bool)
    returns (v': View)
    requires Inv(s, v) && Enabled(s, SendSegment(config, now, space, nonce))
    ensures Inv(Step(s, SendSegment(config, now, space, nonce)), v')
  {
    hide G.Inv, U.Inv, L.Inv, CargoHolds, Merge, S.Filled, Packed, EncodeAll, DecodeAll, AllSent, T.Sum;
    StepKeepsShape(s, SendSegment(config, now, space, nonce));
    var u', r', ps := Ships(v.u, v.r, s.queues, config, now, space);
    Loaded(s.queues, config, now, space, nonce, ps);
    var ds := S.Filled(s.queues, config, now, space).1;
    var segment, top := R.Segment(nonce, EncodeAll(ds)), Mark(|u'.net|, r'.tx.maxAck);
    v' := View(u', r', v.cargo + [ps], v.marks + [top]);
    PackedLength(ps, u'.net, r'.data, |v.u.net|, |u'.net|);
    SendableNow(r');
    CargoNext(s.seg.sent, v, segment, ps, v', top);
  }

  lemma {:induction false} StepKeepsInv(s: System, v: View, a: Action) returns (v': View)
    requires Inv(s, v) && Enabled(s, a)
    ensures Inv(Step(s, a), v')
  {
    hide Inv, Step, Enabled;
    match a
    case Enqueue(packet, mode, now) => v' := EnqueueKeeps(s, v, packet, mode, now);
    case Expire(now) => v' := ExpireKeeps(s, v, now);
    case SendSegment(config, now, space, nonce) => v' := SendKeeps(s, v, config, now, space, nonce);
    case Timeout => v' := TimeoutKeeps(s, v);
    case DeliverSegment(k) => v' := DeliverKeeps(s, v, k);
    case EmitAck(ack, withRel) => v' := EmitAckKeeps(s, v, ack, withRel);
    case DeliverAck(ack, rel) => v' := DeliverAckKeeps(s, v, ack, rel);
    case EmitSync => v' := EmitSyncKeeps(s, v);
    case DeliverSync(k) => v' := SyncKeeps(s, v, k);
  }

  lemma {:induction false} EmitSyncKeeps(s: System, v: View) returns (v': View)
    requires Inv(s, v)
    ensures Inv(Step(s, EmitSync), v')
  {
    hide G.Inv, Agree, CargoHolds;
    StepKeepsShape(s, EmitSync);
    v' := v;
    Unmoved(s, v, Step(s, EmitSync), v);
  }

  // ---- runs ----

  lemma {:induction false} RunKeepsInv(actions: seq<Action>) returns (v: View)
    ensures Inv(After(actions), v)
    decreases |actions|
  {
    if actions == [] {
      v := InitHolds();
    } else {
      hide Inv, Step, Enabled;
      var before := RunKeepsInv(actions[..|actions| - 1]);
      var s, a := After(actions[..|actions| - 1]), actions[|actions| - 1];
      v := before;
      if Enabled(s, a) {
        v := StepKeepsInv(s, before, a);
      }
    }
  }

  lemma {:induction false} InitHolds() returns (v: View)
    ensures Inv(Init(), v)
  {
    hide Shape, U.Inv, L.Inv, T.Tx.Valid;
    InitHasShape();
    U.RunKeepsInv(0, S.FRAGMENT_SIZE, []);
    L.InitHolds(0, S.FRAGMENT_SIZE, WINDOW);
    v := View(U.Init(0, S.FRAGMENT_SIZE), L.Init(0, S.FRAGMENT_SIZE, WINDOW), [], [Mark(0, 0)]);
  }

  /** In every run of a connection, whatever the network does to its frames: what the other user receives
      are the packets of the two channels, one by one; those of the reliable channel a prefix of what was
      enqueued, those of the unreliable one a subsequence, every one of them whole. */
  lemma {:induction false} StreamDelivers(actions: seq<Action>)
    ensures var s := After(actions);
      exists us, rs :: Merge(s.mail.packets, us, rs) && U.IsSubsequence(us, s.unrelPushed) && rs <= s.relPushed
  {
    var v := RunKeepsInv(actions);
    Promises(After(actions), v);
  }

  lemma {:induction false} Promises(s: System, v: View)
    requires Inv(s, v)
    ensures Merge(s.mail.packets, v.u.delivered, v.r.delivered)
    ensures U.IsSubsequence(v.u.delivered, s.unrelPushed) && v.r.delivered <= s.relPushed
  {
    assert U.DeliveredHolds(v.u.packets, v.u.delivered, v.u.origins);
    AssemblePrefix(v.r.packets, v.r.size, v.r.rx.next);
  }
}
