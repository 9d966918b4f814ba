/** Both ends of a connection and the frames between them: what the endpoints' methods ensure, move by move, is
    two runs of StreamChannel, one for each direction. */
module Connection {
  import opened Words
  import opened Fragments
  import opened Codec
  import opened Timer
  import opened Mailbox
  import opened Endpoint
  import F = Frame
  import S = Sending
  import T = SegmentTx
  import R = SegmentRx
  import C = AimdReno
  import P = Prio
  import G = SegmentChannel
  import U = UnreliableChannel
  import L = ReliableChannel
  import W = StreamChannel
  import Unreliable
  import Reliable

  // ---- the two ends ----

  /** A frame on its way. What comes after it is in no frame: the index of its segment or sync, and the
      indices its acknowledgement stands for. */
  datatype Letter = Letter(frame: Sent, segment: nat, ack: Option<G.Ack>, rel: Option<nat>)

  /** An endpoint, every frame it has sent, and the packets its user has enqueued. */
  datatype Peer = Peer(
    s: Sender,
    rx: SegmentRx,
    mail: Mail,
    prio: Priorities,
    letters: seq<Letter>,
    loose: seq<Packet>,
    bound: seq<Packet>)

  /** Two of them, and the run of each direction: `ab` is the one in which a sends. */
  datatype Link = Link(a: Peer, b: Peer, ab: seq<W.Action>, ba: seq<W.Action>) {
    function Flip(): Link {
      Link(b, a, ba, ab)
    }
  }

  function FreshPeer(prio: Priorities): Peer {
    Peer(FRESH_SENDER.(clock := FRESH_CLOCK.(state := Active, notices := [OnConnect])), FRESH_RX,
         Mail(Unreliable.Rx(0, None), Reliable.Rx(0, None), []), prio, [], [], [])
  }

  function FreshLink(prioA: Priorities, prioB: Priorities): Link {
    Link(FreshPeer(prioA), FreshPeer(prioB), [], [])
  }

  // ---- what an end does ----

  /** The user's calls, the frames that arrive, the timer's expiry, and the end of it all, in which only close
      frames are sent. */
  datatype Deed =
    | Enqueue(packet: Packet, mode: S.SendMode, now: time)
    | Flush(now: time, record: seq<Sent>)
    | Frame(letter: Letter, now: time, record: seq<Sent>)
    | SyncFrame(letter: Letter, now: time, record: seq<Sent>)
    | Expire(now: time, timeout: nat, record: seq<Sent>)
    | Close(more: seq<Letter>)

  /** The acknowledgement a receiver gives, in indices. */
  function Report(rx: R.Rx): G.Ack {
    var ack := AsSent(AckOf(rx, None));
    G.Ack(|rx.log|, Widened(ack.history), ack.checksum)
  }

  /** The frames of a flush, `next` being the index of the first segment. */
  function Posted(next: nat, record: seq<Sent>, ack: Option<G.Ack>, rel: Option<nat>): seq<Letter>
    decreases |record|
  {
    if record == [] then []
    else
      var front := record[..|record| - 1];
      Posted(next, front, ack, rel) + [Letter(record[|record| - 1], next + SegmentCount(front), ack, rel)]
  }

  function Opened(p: Peer, c: F.Content): Intake
    requires Carries(c)
  {
    FrameTaken(p.rx, p.mail, F.KindOf(c), F.Payload(F.FrameOf(c)))
  }

  function Heard(p: Peer, c: F.Content, now: time): Sender
    requires Carries(c) && p.s.clock.NotBefore(now)
  {
    SenderAfter(p.s, F.KindOf(c), F.Payload(F.FrameOf(c)), now)
  }

  function RelOf(t: Intake): Option<nat> {
    if AnyReliable(t.taken) then Some(t.mail.rel.next) else None
  }

  /** What the endpoint's methods ensure. */
  ghost predicate Does(p: Peer, d: Deed, p': Peer) {
    && p'.prio == p.prio && (d.Close? || p.s.clock.state == Active)
    && match d
       case Enqueue(packet, mode, now) =>
         && (mode.Unreliable? ==> mode.timeout <= 0xffff)
         && p'.s.queues == p.s.queues.Enqueue(packet, mode, now)
         && p' == p.(s := p.s.(queues := p'.s.queues),
                     loose := if mode.Reliable? then p.loose else p.loose + [packet],
                     bound := if mode.Reliable? then p.bound + [packet] else p.bound)
       case Flush(now, record) =>
         && FlushEnded(FlushStart(p.s, p.prio, None, now), p'.s, record)
         && p' == p.(s := p'.s, letters := p.letters + Posted(p.s.tx.next, record, None, None))
       case Frame(letter, now, record) =>
         && letter.frame.Stream? && Carries(letter.frame.content) && p.s.clock.NotBefore(now)
         && var t, s := Opened(p, letter.frame.content), Heard(p, letter.frame.content, now);
         && FlushEnded(FlushStart(s, p.prio, ReplyTo(t), now), p'.s, record)
         && p' == p.(s := p'.s, rx := t.rx, mail := t.mail,
                     letters := p.letters + Posted(s.tx.next, record, Some(Report(t.rx)), RelOf(t)))
       case SyncFrame(letter, now, record) =>
         && letter.frame.Sync?
         && FlushEnded(FlushStart(p.s, p.prio, SyncReply(p'.rx, p'.mail), now), p'.s, record)
         && p' == p.(s := p'.s, rx := SyncedRx(p.rx, letter.frame.next),
                     mail := SyncTaken(p.rx, p.mail, letter.frame.next),
                     letters := p.letters + Posted(p.s.tx.next, record, Some(Report(p'.rx)), Some(p'.mail.rel.next)))
       case Expire(now, timeout, record) =>
         && p.s.clock.timer.Some?
         && if Expired(p.s.clock, now, timeout).state == Zombie then
              p' == p.(s := p.s.(clock := Expired(p.s.clock, now, timeout)))
            else
              && FlushEnded(FlushStart(Retried(p.s, now, timeout), p.prio, None, now), p'.s, record)
              && p' == p.(s := p'.s,
                          letters := p.letters + [Letter(Sync(StreamSync(Wire(p.s.tx.next))), p.s.tx.next, None, None)]
                                     + Posted(p.s.tx.next, record, None, None))
       case Close(more) =>
         && p' == p.(s := p.s.(clock := p'.s.clock), letters := p.letters + more)
         && forall m :: m in more ==> m.frame in {CloseRequest, CloseReply}
  }

  // ---- what that means for the two directions ----

  function Shipped(prio: Priorities, now: time, record: seq<Sent>): seq<W.Action>
    decreases |record|
  {
    if record == [] then [W.Expire(now)]
    else
      var s := record[|record| - 1];
      Shipped(prio, now, record[..|record| - 1]) +
      if HasSegment(s) then
        [W.SendSegment(prio, now, S.RoomFor(s.content.ack), s.content.segment.value.0.nonce)]
      else []
  }

  /** An acknowledgement arrives. */
  function Told(letter: Letter): seq<W.Action> {
    if letter.frame.Stream? && letter.frame.content.ack.Some? && letter.ack.Some? then
      [W.DeliverAck(letter.ack.value, letter.rel)]
    else []
  }

  /** In the direction in which the end sends. */
  function Outward(p: Peer, d: Deed): seq<W.Action> {
    match d
    case Enqueue(packet, mode, now) => [W.Enqueue(packet, mode, now)]
    case Flush(now, record) => Shipped(p.prio, now, record)
    case Frame(letter, now, record) => Told(letter) + Shipped(p.prio, now, record)
    case SyncFrame(_, now, record) => Shipped(p.prio, now, record)
    case Expire(now, timeout, record) =>
      if p.s.clock.timer.Some? && Expired(p.s.clock, now, timeout).state != Zombie then
        [W.Timeout, W.EmitSync] + Shipped(p.prio, now, record)
      else []
    case Close(_) => []
  }

  /** In the direction in which it receives. */
  function Inward(p: Peer, d: Deed): seq<W.Action> {
    match d
    case Frame(letter, now, _) =>
      if letter.frame.Stream? && Carries(letter.frame.content) then
        var t := Opened(p, letter.frame.content);
        (if letter.frame.content.segment.Some? then [W.DeliverSegment(letter.segment)] else [])
        + (if t.taken != [] then [W.EmitAck(Report(t.rx), AnyReliable(t.taken))] else [])
      else []
    case SyncFrame(letter, _, _) =>
      if letter.frame.Sync? then
        [W.DeliverSync(letter.segment), W.EmitAck(Report(SyncedRx(p.rx, letter.frame.next)), true)]
      else []
    case _ => []
  }

  /** What is asked of the network: any frame sent may arrive, any number of times and in any order, while
      it is not too old. */
  ghost predicate Timely(l: Link, d: Deed) {
    match d
    case Frame(letter, _, _) =>
      && letter in l.b.letters && letter.frame.Stream? && Carries(letter.frame.content)
      && (letter.frame.content.segment.Some? ==>
          && l.b.s.tx.next <= letter.segment + G.MAX_AGE
          && W.InLap(W.After(l.ba), |Opened(l.a, letter.frame.content).rx.log|))
      && (letter.frame.content.ack.Some? && letter.ack.Some? ==> l.a.s.tx.next <= letter.ack.value.base + G.MAX_AGE)
      && (letter.frame.content.ack.Some? && letter.rel.Some? ==>
          l.a.s.queues.rel.maxAck <= letter.rel.value + L.MAX_AGE)
    case SyncFrame(letter, _, _) =>
      && letter in l.b.letters && letter.frame.Sync?
      && l.b.s.tx.next <= letter.segment + G.MAX_AGE
      && W.InLap(W.After(l.ba), |SyncedRx(l.a.rx, letter.frame.next).log|)
    case _ => true
  }

  /** The first end makes a move. */
  ghost predicate Moves(l: Link, d: Deed, l': Link) {
    && Timely(l, d) && Does(l.a, d, l'.a) && l'.b == l.b
    && l'.ab == l.ab + Outward(l.a, d) && l'.ba == l.ba + Inward(l.a, d)
  }

  datatype Turn = Turn(first: bool, deed: Deed, after: Link)

  function EndOf(start: Link, run: seq<Turn>): Link {
    if run == [] then start else run[|run| - 1].after
  }

  ghost predicate Run(start: Link, run: seq<Turn>)
    decreases |run|
  {
    run == [] ||
    var front, t := run[..|run| - 1], run[|run| - 1];
    && Run(start, front)
    && if t.first then Moves(EndOf(start, front), t.deed, t.after)
       else Moves(EndOf(start, front).Flip(), t.deed, t.after.Flip())
  }

  // ---- coupling ----

  /** A direction's state is that of the two ends. */
  ghost predicate Half(from: Peer, to: Peer, w: W.System) {
    && from.s.tx == w.seg.tx && from.s.queues == w.queues
    && from.loose == w.unrelPushed && from.bound == w.relPushed
    && to.rx == w.seg.rx && to.mail == w.mail
    && w.seg.start == 0
  }

  function Wired(rel: Option<nat>): Option<u32> {
    if rel.Some? then Some(Wire(rel.value)) else None
  }

  ghost predicate SegmentTrue(c: F.Content, k: nat, sent: seq<R.Segment>) {
    c.segment.Some? ==>
      && k < |sent| && c.segment.value.0.id == Wire(k)
      && sent[k] == R.Segment(c.segment.value.0.nonce, EncodeAll(c.segment.value.1))
      && forall d :: d in c.segment.value.1 ==> Sendable(d)
  }

  ghost predicate AckTrue(said: Option<StreamAck>, ack: Option<G.Ack>, rel: Option<nat>, back: W.System) {
    said.Some? ==>
      && ack.Some? && ack.value in back.seg.acks
      && var heard := AsSent(said.value);
      && heard.segmentId == Wire(ack.value.base) && Widened(heard.history) == ack.value.heard
      && heard.checksum == ack.value.checksum && heard.relFragmentId == Wired(rel)
      && (rel.Some? ==> rel.value in back.relAcks)
  }

  /** A frame says what is so. */
  ghost predicate Truthful(m: Letter, out: W.System, back: W.System) {
    match m.frame
    case Stream(c) =>
      Carries(c) && SegmentTrue(c, m.segment, out.seg.sent) && AckTrue(c.ack, m.ack, m.rel, back)
    case Sync(sync) => m.segment in out.seg.syncs && sync.nextSegmentId == Wire(m.segment)
    case _ => true
  }

  ghost predicate AllTruthful(ms: seq<Letter>, out: W.System, back: W.System) {
    forall m :: m in ms ==> Truthful(m, out, back)
  }

  ghost predicate Coupled(l: Link) {
    var ab, ba := W.After(l.ab), W.After(l.ba);
    && Half(l.a, l.b, ab) && Half(l.b, l.a, ba)
    && AllTruthful(l.a.letters, ab, ba) && AllTruthful(l.b.letters, ba, ab)
  }

  // ---- the runs go on ----

  ghost function Try(w: W.System, a: W.Action): (w': W.System)
    requires W.Shape(w)
    ensures W.Shape(w')
  {
    if W.Enabled(w, a) then W.StepKeepsShape(w, a); W.Step(w, a) else w
  }

  lemma {:induction false} AfterNext(h: seq<W.Action>, a: W.Action)
    ensures W.After(h + [a]) == Try(W.After(h), a)
  {
    assert (h + [a])[..|h|] == h;
  }

  /** What was sent stays sent. */
  ghost predicate Grows(w: W.System, w': W.System) {
    && w.seg.sent <= w'.seg.sent && w.seg.acks <= w'.seg.acks && w.seg.syncs <= w'.seg.syncs
    && w.relAcks <= w'.relAcks && w'.seg.start == w.seg.start
  }

  lemma {:induction false} TryGrows(w: W.System, a: W.Action)
    requires W.Shape(w)
    ensures Grows(w, Try(w, a))
  {
    hide W.Shape, W.Enabled, TakeAll, S.Filled, R.Rx.Receive, R.Rx.Sync, T.Tx.Acknowledge;
  }

  lemma {:induction false} StaysTruthful(ms: seq<Letter>, out: W.System, back: W.System, out': W.System,
                                         back': W.System)
    requires AllTruthful(ms, out, back) && Grows(out, out') && Grows(back, back')
    ensures AllTruthful(ms, out', back')
  {
    forall m | m in ms
      ensures Truthful(m, out', back')
    {
      assert Truthful(m, out, back);
    }
  }

  // ---- a flush ----

  lemma {:induction false} CountUpTo(record: seq<Sent>, n: nat)
    requires n <= |record|
    ensures SegmentCount(record[..n]) <= SegmentCount(record)
    ensures n < |record| && HasSegment(record[n]) ==> SegmentCount(record[..n]) < SegmentCount(record)
    decreases |record|
  {
    if n == |record| {
      assert record[..n] == record;
    } else {
      var front := record[..|record| - 1];
      CountUpTo(front, n);
      assert front[..n] == record[..n];
    }
  }

  lemma {:induction false} SentAllCount(tx: T.Tx, record: seq<Sent>)
    ensures var t := SentAll(tx, record);
      t.next == tx.next + SegmentCount(record) && t.base == tx.base && t.size == tx.size
    decreases |record|
  {
    if record != [] {
      SentAllCount(tx, record[..|record| - 1]);
    }
  }

  lemma {:induction false} TrySend(w: W.System, prio: Priorities, now: time, space: nat, nonce: bool)
    requires W.Shape(w) && w.seg.tx.CanSend() && space <= F.FRAME_SIZE_MAX
    ensures var (queues, ds) := S.Filled(w.queues, prio, now, space);
      Try(w, W.SendSegment(prio, now, space, nonce)) ==
        w.(queues := queues, sentAt := w.sentAt + [queues.unrel.next],
           seg := w.seg.(tx := w.seg.tx.Send(S.DataSize(ds), nonce),
                         sent := w.seg.sent + [R.Segment(nonce, EncodeAll(ds))]))
  {
    hide G.Inv, S.Filled, S.DataSize, EncodeAll;
  }

  /** The receiving side and the acknowledgements of a direction are as they were. */
  ghost predicate OnlySends(w: W.System, w': W.System) {
    && w'.seg == w.seg.(tx := w'.seg.tx, sent := w'.seg.sent, syncs := w'.seg.syncs)
    && w'.mail == w.mail && w'.relAcks == w.relAcks
    && w'.unrelPushed == w.unrelPushed && w'.relPushed == w.relPushed
    && w.seg.sent <= w'.seg.sent && w.seg.syncs <= w'.seg.syncs
  }

  /** The first n frames of a flush have left. */
  ghost predicate Departed(w: W.System, from: FlushStart, record: seq<Sent>, n: nat, w': W.System)
    requires n <= |record|
  {
    && OnlySends(w, w')
    && w'.seg.tx == SentAll(from.s.tx, record[..n])
    && w'.queues == QueuesAfter(from.s.queues, from.prio, from.now, record[..n])
    && forall i :: 0 <= i < n ==> InPlace(from, record, i, w'.seg.sent)
  }

  ghost predicate InPlace(from: FlushStart, record: seq<Sent>, i: nat, sent: seq<R.Segment>)
    requires i < |record|
  {
    record[i].Stream? && SegmentTrue(record[i].content, from.s.tx.next + SegmentCount(record[..i]), sent)
  }

  /** What holds of each frame of a flush. */
  lemma {:induction false} FrameFacts(from: FlushStart, s: Sender, record: seq<Sent>, n: nat)
    requires FlushEnded(from, s, record) && n < |record| && HasSegment(record[n])
    ensures var (header, ds) := record[n].content.segment.value;
      && header.id == Wire(from.s.tx.next + SegmentCount(record[..n])) && (forall d :: d in ds ==> Sendable(d))
      && ds == S.Filled(QueuesAfter(from.s.queues, from.prio, from.now, record[..n]), from.prio, from.now,
                        S.RoomFor(record[n].content.ack)).1
    ensures SentAll(from.s.tx, record[..n]).CanSend()
  {
    hide S.Records, SentAll, QueuesAfter, S.Filled, Kept, T.Sum;
    CountUpTo(record, n);
    SentAllCount(from.s.tx, record[..n]);
    assert FilledAt(from.s.queues, from.prio, from.now, record, n);
    assert FrameInTurn(record, n, from.s.tx.next, from.ack);
  }

  /** What one more frame adds to what has left. */
  lemma {:induction false} FrameAdds(from: FlushStart, record: seq<Sent>, n: nat)
    requires n < |record| && HasSegment(record[n])
    ensures var c := record[n].content;
      && SentAll(from.s.tx, record[..n + 1]) ==
           SentAll(from.s.tx, record[..n]).Send(S.DataSize(c.segment.value.1), c.segment.value.0.nonce)
      && QueuesAfter(from.s.queues, from.prio, from.now, record[..n + 1]) ==
           S.Filled(QueuesAfter(from.s.queues, from.prio, from.now, record[..n]), from.prio, from.now,
                    S.RoomFor(c.ack)).0
  {
    hide S.Filled, S.DataSize;
    assert record[..n + 1][..n] == record[..n];
  }

  lemma {:induction false} DepartNext(w: W.System, from: FlushStart, s: Sender, record: seq<Sent>, n: nat, w': W.System)
    requires W.Shape(w') && w'.seg.start == 0 && FlushEnded(from, s, record)
    requires n < |record| && Departed(w, from, record, n, w') && HasSegment(record[n])
    ensures var c := record[n].content;
      var a := W.SendSegment(from.prio, from.now, S.RoomFor(c.ack), c.segment.value.0.nonce);
      Departed(w, from, record, n + 1, Try(w', a))
  {
    hide FlushEnded, G.Inv, S.Filled, SentAll, QueuesAfter, S.DataSize, EncodeAll, W.Enabled, W.Step, Try;
    var c := record[n].content;
    var nonce := c.segment.value.0.nonce;
    FrameFacts(from, s, record, n);
    FrameAdds(from, record, n);
    TrySend(w', from.prio, from.now, S.RoomFor(c.ack), nonce);
    SentAllCount(from.s.tx, record[..n]);
    ShapeCounts(w');
    var w'' := Try(w', W.SendSegment(from.prio, from.now, S.RoomFor(c.ack), nonce));
    forall i | 0 <= i < n + 1
      ensures InPlace(from, record, i, w''.seg.sent)
    {
      if i < n {
        assert InPlace(from, record, i, w'.seg.sent);
      }
    }
  }

  lemma {:induction false} ShapeCounts(w: W.System)
    requires W.Shape(w)
    ensures |w.seg.sent| == w.seg.tx.next - w.seg.start
  {
  }

  lemma {:induction false} Departs(h: seq<W.Action>, from: FlushStart, s: Sender, record: seq<Sent>, n: nat)
    requires W.After(h).seg.tx == from.s.tx && W.After(h).queues == from.s.queues && W.After(h).seg.start == 0
    requires FlushEnded(from, s, record) && n <= |record|
    ensures Departed(W.After(h), from, record, n, W.After(h + Shipped(from.prio, from.now, record[..n])))
    decreases n
  {
    hide FlushEnded, W.After;
    var w := W.After(h);
    if n == 0 {
      AfterNext(h, W.Expire(from.now));
    } else {
      var before, m := Shipped(from.prio, from.now, record[..n - 1]), record[n - 1];
      Departs(h, from, s, record, n - 1);
      assert record[..n][..n - 1] == record[..n - 1];
      if HasSegment(m) {
        var a := W.SendSegment(from.prio, from.now, S.RoomFor(m.content.ack), m.content.segment.value.0.nonce);
        AfterNext(h + before, a);
        assert h + (before + [a]) == h + before + [a];
        DepartNext(w, from, s, record, n - 1, W.After(h + before));
      } else {
        assert before + [] == before;
        DepartNothing(w, from, s, record, n - 1, W.After(h + before));
      }
    }
  }

  lemma {:induction false} DepartNothing(w: W.System, from: FlushStart, s: Sender, record: seq<Sent>, n: nat,
                                         w': W.System)
    requires FlushEnded(from, s, record)
    requires n < |record| && Departed(w, from, record, n, w') && !HasSegment(record[n])
    ensures Departed(w, from, record, n + 1, w')
  {
    assert record[..n + 1][..n] == record[..n];
    assert FrameInTurn(record, n, from.s.tx.next, from.ack);
  }

  lemma {:induction false} PostedTrue(from: FlushStart, record: seq<Sent>, n: nat, ack: Option<G.Ack>, rel: Option<nat>,
                                      out: W.System, back: W.System)
    requires n <= |record| && LogHolds(record, from.s.tx.next, from.ack) && AckTrue(from.ack, ack, rel, back)
    requires forall i :: 0 <= i < n ==> InPlace(from, record, i, out.seg.sent)
    ensures AllTruthful(Posted(from.s.tx.next, record[..n], ack, rel), out, back)
    decreases n
  {
    if n > 0 {
      PostedTrue(from, record, n - 1, ack, rel, out, back);
      assert record[..n][..n - 1] == record[..n - 1];
      assert InPlace(from, record, n - 1, out.seg.sent) && FrameInTurn(record, n - 1, from.s.tx.next, from.ack);
    }
  }

  /** What a flush ensures is a run of the direction in which it sends, and its frames say what is so. */
  lemma {:induction false} FlushRuns(h: seq<W.Action>, from: FlushStart, s: Sender, record: seq<Sent>,
                                     ack: Option<G.Ack>, rel: Option<nat>, back: W.System)
    requires W.After(h).seg.tx == from.s.tx && W.After(h).queues == from.s.queues && W.After(h).seg.start == 0
    requires FlushEnded(from, s, record) && AckTrue(from.ack, ack, rel, back)
    ensures var w := W.After(h + Shipped(from.prio, from.now, record));
      && OnlySends(W.After(h), w) && w.seg.tx == s.tx && w.queues == s.queues
      && AllTruthful(Posted(from.s.tx.next, record, ack, rel), w, back)
  {
    hide W.After, Shipped, S.Records, SentAll, QueuesAfter, Kept;
    Departs(h, from, s, record, |record|);
    assert record[..|record|] == record;
    PostedTrue(from, record, |record|, ack, rel, W.After(h + Shipped(from.prio, from.now, record)), back);
  }

  // ---- a frame arrives ----

  function Taking(p: Peer, rx: SegmentRx): Intake {
    var ds := DecodeEach(R.Handed(p.rx.log, rx.log));
    Intake(rx, TakeAll(p.mail, ds), ds)
  }

  /** What is read is what was written. */
  lemma {:induction false} OpenedIs(p: Peer, c: F.Content)
    requires Carries(c)
    ensures Opened(p, c) ==
      match c.segment
      case None => Intake(p.rx, p.mail, [])
      case Some((header, ds)) => Taking(p, ReceivedSegment(p.rx, header, EncodeAll(ds)))
  {
    hide TakeAll, DecodeEach, ReceivedSegment, EncodeAll, EncodeHeader, DecodeHeader, EncodeAck, F.FrameOf;
    PayloadIs(c);
    if c.segment.Some? {
      var (header, ds) := c.segment.value;
      HeaderRoundTrip(header, EncodeAll(ds));
      assert F.SegmentBytes(c)[SEGMENT_HEADER_SIZE..] == EncodeAll(ds);
    }
  }

  lemma {:induction false} PayloadIs(c: F.Content)
    requires Carries(c)
    ensures var payload := F.Payload(F.FrameOf(c));
      && payload == F.AckBytes(c.ack) + F.SegmentBytes(c)
      && (c.ack.Some? ==> |payload| >= STREAM_ACK_SIZE && payload[STREAM_ACK_SIZE..] == F.SegmentBytes(c))
      && (c.ack.None? ==> payload == F.SegmentBytes(c))
  {
    F.SealedReadsBack(F.KindOf(c), F.ContentBytes(c));
  }

  lemma {:induction false} HeardIs(p: Peer, c: F.Content, now: time)
    requires Carries(c) && p.s.clock.NotBefore(now)
    ensures Heard(p, c, now) == if c.ack.Some? then AckedSender(p.s, AsSent(c.ack.value), now) else p.s
  {
    hide AckedSender, DecodeAck, F.FrameOf;
    PayloadIs(c);
    if c.ack.Some? {
      AckRoundTrip(c.ack.value, F.SegmentBytes(c));
    }
  }

  /** The sending side of a direction is as it was. */
  ghost predicate OnlyTakes(w: W.System, w': W.System) {
    && w'.seg == w.seg.(rx := w'.seg.rx, handed := w'.seg.handed, acks := w'.seg.acks)
    && w'.queues == w.queues && w'.unrelPushed == w.unrelPushed && w'.relPushed == w.relPushed
    && w.seg.acks <= w'.seg.acks && w.relAcks <= w'.relAcks
  }

  /** Only the queues and the segments awaiting acknowledgement have changed. */
  ghost predicate OnlyHears(w: W.System, w': W.System) {
    w' == w.(seg := w.seg.(tx := w'.seg.tx), queues := w'.queues)
  }

  lemma {:induction false} TrySegment(p: Peer, w: W.System, c: F.Content, k: nat)
    requires W.Shape(w) && w.seg.start == 0 && p.rx == w.seg.rx && p.mail == w.mail
    requires c.segment.Some? && SegmentTrue(c, k, w.seg.sent) && w.seg.tx.next <= k + G.MAX_AGE
    requires W.InLap(w, |ReceivedSegment(p.rx, c.segment.value.0, EncodeAll(c.segment.value.1)).log|)
    ensures var w' := Try(w, W.DeliverSegment(k));
      var t := Taking(p, ReceivedSegment(p.rx, c.segment.value.0, EncodeAll(c.segment.value.1)));
      OnlyTakes(w, w') && w'.seg.rx == t.rx && w'.mail == t.mail && w'.seg.tx == w.seg.tx && w'.relAcks == w.relAcks
  {
    hide TakeAll, DecodeEach, R.Rx.Receive, EncodeAll, W.SentBefore, W.InLap;
    ShapeCounts(w);
  }

  lemma {:induction false} TryReply(w: W.System, rx: SegmentRx, m: Mail, withRel: bool)
    requires W.Shape(w) && rx == w.seg.rx && m == w.mail
    ensures var w' := Try(w, W.EmitAck(Report(rx), withRel));
      var rel: Option<nat> := if withRel then Some(m.rel.next) else None;
      && OnlyTakes(w, w') && w'.seg.rx == w.seg.rx && w'.mail == w.mail
      && AckTrue(Some(AckOf(rx, Wired(rel))), Some(Report(rx)), rel, w')
  {
    hide G.Inv, G.Reports, HistoryByte, Widened, R.LogParity, T.Tx.Valid, S.Queues.Valid, R.Rx.Valid;
    AckIsReport(rx, None);
  }

  lemma {:induction false} TryAck(p: Peer, w: W.System, c: F.Content, ack: Option<G.Ack>, rel: Option<nat>,
                                  now: time)
    requires W.Shape(w) && p.s.tx == w.seg.tx && p.s.queues == w.queues && p.s.clock.NotBefore(now)
    requires c.ack.Some? && AckTrue(c.ack, ack, rel, w)
    requires w.seg.tx.next <= ack.value.base + G.MAX_AGE
    requires rel.Some? ==> w.queues.rel.maxAck <= rel.value + L.MAX_AGE
    ensures var w' := Try(w, W.DeliverAck(ack.value, rel));
      var s := AckedSender(p.s, AsSent(c.ack.value), now);
      OnlyHears(w, w') && w'.seg.tx == s.tx && w'.queues == s.queues
  {
    hide G.Inv, Answered, AckedWindow, ShowsDrop, Widened, T.Tx.Acknowledge;
  }

  /** The receiving side after a frame, and the answer owed, are those of its direction. */
  lemma {:induction false} FrameTakesIn(p: Peer, h: seq<W.Action>, letter: Letter, now: time, record: seq<Sent>)
    requires var w := W.After(h); w.seg.start == 0 && p.rx == w.seg.rx && p.mail == w.mail
    requires letter.frame.Stream? && Carries(letter.frame.content)
    requires SegmentTrue(letter.frame.content, letter.segment, W.After(h).seg.sent)
    requires letter.frame.content.segment.Some? ==>
      && W.After(h).seg.tx.next <= letter.segment + G.MAX_AGE
      && W.InLap(W.After(h), |Opened(p, letter.frame.content).rx.log|)
    ensures var t := Opened(p, letter.frame.content);
      var w := W.After(h + Inward(p, Frame(letter, now, record)));
      && OnlyTakes(W.After(h), w) && w.seg.rx == t.rx && w.mail == t.mail
      && AckTrue(ReplyTo(t), Some(Report(t.rx)), RelOf(t), w)
  {
    hide W.After, OnlyTakes, Opened, TakeAll, DecodeEach, ReceivedSegment, AckOf, Report, W.InLap, EncodeAll;
    hide AnyReliable, Inward, SegmentTrue;
    var c := letter.frame.content;
    OpenedIs(p, c);
    var t := Opened(p, c);
    var h' := h;
    TakesNothing(W.After(h));
    if c.segment.Some? {
      var a := W.DeliverSegment(letter.segment);
      h' := h + [a];
      AfterNext(h, a);
      TrySegment(p, W.After(h), c, letter.segment);
    }
    if t.taken != [] {
      var a := W.EmitAck(Report(t.rx), AnyReliable(t.taken));
      AfterNext(h', a);
      TryReply(W.After(h'), t.rx, t.mail, AnyReliable(t.taken));
      TakesBoth(W.After(h), W.After(h'), W.After(h' + [a]));
    }
    InwardParts(p, h, letter, now, record);
  }

  lemma {:induction false} InwardParts(p: Peer, h: seq<W.Action>, letter: Letter, now: time, record: seq<Sent>)
    requires letter.frame.Stream? && Carries(letter.frame.content)
    ensures var t := Opened(p, letter.frame.content);
      var h' := if letter.frame.content.segment.Some? then h + [W.DeliverSegment(letter.segment)] else h;
      h + Inward(p, Frame(letter, now, record)) ==
        if t.taken != [] then h' + [W.EmitAck(Report(t.rx), AnyReliable(t.taken))] else h'
  {
    hide Opened, Report, AnyReliable;
  }

  lemma {:induction false} TakesNothing(w: W.System)
    ensures OnlyTakes(w, w)
  {
  }

  lemma {:induction false} TakesBoth(w: W.System, v: W.System, u: W.System)
    requires OnlyTakes(w, v) && OnlyTakes(v, u)
    ensures OnlyTakes(w, u)
  {
  }

  /** A frame whose acknowledgement, if any, was given and is not too old. */
  ghost predicate Stated(letter: Letter, w: W.System) {
    && letter.frame.Stream? && Carries(letter.frame.content)
    && AckTrue(letter.frame.content.ack, letter.ack, letter.rel, w)
    && (letter.frame.content.ack.Some? && letter.ack.Some? ==>
        && w.seg.tx.next <= letter.ack.value.base + G.MAX_AGE
        && (letter.rel.Some? ==> w.queues.rel.maxAck <= letter.rel.value + L.MAX_AGE))
  }

  /** The sending side after a frame's acknowledgement is that of its direction. */
  lemma {:induction false} FrameTells(p: Peer, h: seq<W.Action>, letter: Letter, now: time)
    requires var w := W.After(h); p.s.tx == w.seg.tx && p.s.queues == w.queues && p.s.clock.NotBefore(now)
    requires Stated(letter, W.After(h))
    ensures var s := Heard(p, letter.frame.content, now);
      var w := W.After(h + Told(letter));
      OnlyHears(W.After(h), w) && w.seg.tx == s.tx && w.queues == s.queues
  {
    hide W.After, Heard, AckedSender;
    HeardIs(p, letter.frame.content, now);
    if letter.frame.content.ack.Some? {
      AfterNext(h, W.DeliverAck(letter.ack.value, letter.rel));
      TryAck(p, W.After(h), letter.frame.content, letter.ack, letter.rel, now);
    } else {
      assert h + [] == h;
    }
  }

  // ---- every move keeps the two together ----

  /** The direction in which an end sends, and the one in which it receives, after a move of that end. */
  ghost predicate SendingSide(w: W.System, w': W.System) {
    Grows(w, w') && w'.seg.rx == w.seg.rx && w'.mail == w.mail
  }

  ghost predicate ReceivingSide(w: W.System, w': W.System) {
    && Grows(w, w') && w'.seg.tx == w.seg.tx && w'.queues == w.queues
    && w'.unrelPushed == w.unrelPushed && w'.relPushed == w.relPushed
  }

  ghost predicate SendsAs(p: Peer, w: W.System) {
    && p.s.tx == w.seg.tx && p.s.queues == w.queues && p.loose == w.unrelPushed && p.bound == w.relPushed
    && w.seg.start == 0
  }

  ghost predicate ReceivesAs(p: Peer, w: W.System) {
    p.rx == w.seg.rx && p.mail == w.mail
  }

  lemma {:induction false} Recouple(l: Link, l': Link, more: seq<Letter>)
    requires Coupled(l) && l'.b == l.b && l'.a.letters == l.a.letters + more
    requires SendingSide(W.After(l.ab), W.After(l'.ab)) && ReceivingSide(W.After(l.ba), W.After(l'.ba))
    requires SendsAs(l'.a, W.After(l'.ab)) && ReceivesAs(l'.a, W.After(l'.ba))
    requires AllTruthful(more, W.After(l'.ab), W.After(l'.ba))
    ensures Coupled(l')
  {
    hide W.After, Truthful;
    var ab, ba, ab', ba' := W.After(l.ab), W.After(l.ba), W.After(l'.ab), W.After(l'.ba);
    StaysTruthful(l.a.letters, ab, ba, ab', ba');
    StaysTruthful(l.b.letters, ba, ab, ba', ab');
  }

  lemma {:induction false} Uncouple(l: Link)
    requires Coupled(l)
    ensures SendsAs(l.a, W.After(l.ab)) && ReceivesAs(l.a, W.After(l.ba)) && W.After(l.ba).seg.start == 0
    ensures l.b.s.tx == W.After(l.ba).seg.tx
    ensures forall m :: m in l.b.letters ==> Truthful(m, W.After(l.ba), W.After(l.ab))
  {
  }

  lemma {:induction false} TellsThenSends(w: W.System, v: W.System, u: W.System)
    requires OnlyHears(w, v) && OnlySends(v, u)
    ensures SendingSide(w, u) && u.unrelPushed == w.unrelPushed && u.relPushed == w.relPushed
  {
  }

  /** A frame's acknowledgement is heard, and then a flush. */
  lemma {:induction false} TellsThenFlushes(p: Peer, h: seq<W.Action>, letter: Letter, from: FlushStart, s: Sender,
                                            record: seq<Sent>, ack: Option<G.Ack>, rel: Option<nat>, back: W.System)
    requires var w := W.After(h); p.s.tx == w.seg.tx && p.s.queues == w.queues && w.seg.start == 0
    requires p.s.clock.NotBefore(from.now) && Stated(letter, W.After(h))
    requires from.s == Heard(p, letter.frame.content, from.now)
    requires FlushEnded(from, s, record) && AckTrue(from.ack, ack, rel, back)
    ensures var w, w' := W.After(h), W.After(h + (Told(letter) + Shipped(from.prio, from.now, record)));
      && SendingSide(w, w') && w'.unrelPushed == w.unrelPushed && w'.relPushed == w.relPushed
      && w'.seg.tx == s.tx && w'.queues == s.queues
      && AllTruthful(Posted(from.s.tx.next, record, ack, rel), w', back)
  {
    hide W.After, Heard, FlushEnded, Shipped, AllTruthful, AckTrue, Told, Posted, OnlySends;
    FrameTells(p, h, letter, from.now);
    FlushRuns(h + Told(letter), from, s, record, ack, rel, back);
    assert h + (Told(letter) + Shipped(from.prio, from.now, record)) ==
           h + Told(letter) + Shipped(from.prio, from.now, record);
    TellsThenSends(W.After(h), W.After(h + Told(letter)),
                   W.After(h + Told(letter) + Shipped(from.prio, from.now, record)));
  }

  lemma {:induction false} FrameCouples(l: Link, letter: Letter, now: time, record: seq<Sent>, l': Link)
    requires Coupled(l) && Moves(l, Frame(letter, now, record), l')
    ensures Coupled(l')
  {
    hide W.After, Opened, Heard, FlushEnded, Shipped, Inward, AllTruthful, SegmentTrue, AckTrue, Report, ReplyTo, RelOf;
    hide W.InLap, Coupled, Told, Posted, OnlySends;
    var c, t, s := letter.frame.content, Opened(l.a, letter.frame.content), Heard(l.a, letter.frame.content, now);
    Uncouple(l);
    assert Truthful(letter, W.After(l.ba), W.After(l.ab));
    AckGiven(c, letter, W.After(l.ab));
    FrameTakesIn(l.a, l.ba, letter, now, record);
    TellsThenFlushes(l.a, l.ab, letter, FlushStart(s, l.a.prio, ReplyTo(t), now), l'.a.s, record,
                     Some(Report(t.rx)), RelOf(t), W.After(l'.ba));
    Recouple(l, l', Posted(s.tx.next, record, Some(Report(t.rx)), RelOf(t)));
  }

  lemma {:induction false} AckGiven(c: F.Content, m: Letter, back: W.System)
    requires AckTrue(c.ack, m.ack, m.rel, back)
    ensures c.ack.Some? ==> m.ack.Some?
  {
  }

  lemma {:induction false} SendsOnly(w: W.System, v: W.System)
    requires OnlySends(w, v)
    ensures SendingSide(w, v) && v.unrelPushed == w.unrelPushed && v.relPushed == w.relPushed
  {
  }

  lemma {:induction false} FlushCouples(l: Link, now: time, record: seq<Sent>, l': Link)
    requires Coupled(l) && Moves(l, Flush(now, record), l')
    ensures Coupled(l')
  {
    hide W.After, FlushEnded, Shipped, AllTruthful, Truthful, Coupled, Posted, OnlySends;
    Uncouple(l);
    FlushRuns(l.ab, FlushStart(l.a.s, l.a.prio, None, now), l'.a.s, record, None, None, W.After(l'.ba));
    assert l'.ba == l.ba;
    SendsOnly(W.After(l.ab), W.After(l'.ab));
    Recouple(l, l', Posted(l.a.s.tx.next, record, None, None));
  }

  lemma {:induction false} TrySync(p: Peer, w: W.System, sync: StreamSync, k: nat)
    requires W.Shape(w) && w.seg.start == 0 && p.rx == w.seg.rx && p.mail == w.mail
    requires k in w.seg.syncs && sync.nextSegmentId == Wire(k) && w.seg.tx.next <= k + G.MAX_AGE
    requires W.InLap(w, |SyncedRx(p.rx, sync).log|)
    ensures var w' := Try(w, W.DeliverSync(k));
      OnlyTakes(w, w') && w'.seg.rx == SyncedRx(p.rx, sync) && w'.mail == SyncTaken(p.rx, p.mail, sync)
  {
    hide TakeAll, DecodeEach, R.Rx.Sync, R.Handed, W.SentBefore, W.InLap;
  }

  lemma {:induction false} SyncTakesIn(p: Peer, h: seq<W.Action>, letter: Letter, now: time, record: seq<Sent>)
    requires var w := W.After(h); w.seg.start == 0 && p.rx == w.seg.rx && p.mail == w.mail
    requires letter.frame.Sync? && letter.segment in W.After(h).seg.syncs
    requires letter.frame.next.nextSegmentId == Wire(letter.segment)
    requires W.After(h).seg.tx.next <= letter.segment + G.MAX_AGE
    requires W.InLap(W.After(h), |SyncedRx(p.rx, letter.frame.next).log|)
    ensures var rx, m := SyncedRx(p.rx, letter.frame.next), SyncTaken(p.rx, p.mail, letter.frame.next);
      var w := W.After(h + Inward(p, SyncFrame(letter, now, record)));
      && OnlyTakes(W.After(h), w) && w.seg.rx == rx && w.mail == m
      && AckTrue(SyncReply(rx, m), Some(Report(rx)), Some(m.rel.next), w)
  {
    hide W.After, OnlyTakes, SyncedRx, SyncTaken, AckOf, Report, W.InLap;
    var rx, m := SyncedRx(p.rx, letter.frame.next), SyncTaken(p.rx, p.mail, letter.frame.next);
    var a, b := W.DeliverSync(letter.segment), W.EmitAck(Report(rx), true);
    AfterNext(h, a);
    TrySync(p, W.After(h), letter.frame.next, letter.segment);
    AfterNext(h + [a], b);
    TryReply(W.After(h + [a]), rx, m, true);
    TakesBoth(W.After(h), W.After(h + [a]), W.After(h + [a] + [b]));
    assert h + [a] + [b] == h + [a, b];
  }

  lemma {:induction false} SyncCouples(l: Link, letter: Letter, now: time, record: seq<Sent>, l': Link)
    requires Coupled(l) && Moves(l, SyncFrame(letter, now, record), l')
    ensures Coupled(l')
  {
    hide W.After, FlushEnded, Shipped, Inward, AllTruthful, AckTrue, Report, SyncReply, SyncedRx, SyncTaken, W.InLap;
    hide Coupled, Posted, OnlySends;
    Uncouple(l);
    assert Truthful(letter, W.After(l.ba), W.After(l.ab));
    SyncTakesIn(l.a, l.ba, letter, now, record);
    FlushRuns(l.ab, FlushStart(l.a.s, l.a.prio, SyncReply(l'.a.rx, l'.a.mail), now), l'.a.s, record,
              Some(Report(l'.a.rx)), Some(l'.a.mail.rel.next), W.After(l'.ba));
    SendsOnly(W.After(l.ab), W.After(l'.ab));
    Recouple(l, l', Posted(l.a.s.tx.next, record, Some(Report(l'.a.rx)), Some(l'.a.mail.rel.next)));
  }

  /** After a timeout everything is to be sent again, and a sync is out. */
  lemma {:induction false} ExpiryRuns(p: Peer, h: seq<W.Action>)
    requires p.s.queues == W.After(h).queues
    ensures var w, w' := W.After(h), W.After(h + [W.Timeout, W.EmitSync]);
      w' == w.(queues := RewoundQueues(p.s.queues), seg := w.seg.(syncs := w.seg.syncs + {w.seg.tx.next}))
  {
    hide W.After, G.Inv;
    AfterNext(h, W.Timeout);
    AfterNext(h + [W.Timeout], W.EmitSync);
    assert h + [W.Timeout] + [W.EmitSync] == h + [W.Timeout, W.EmitSync];
  }

  lemma {:induction false} RewoundSide(w: W.System, v: W.System, u: W.System)
    requires v == w.(queues := v.queues, seg := w.seg.(syncs := w.seg.syncs + {w.seg.tx.next})) && OnlySends(v, u)
    ensures SendingSide(w, u) && u.unrelPushed == w.unrelPushed && u.relPushed == w.relPushed
    ensures w.seg.tx.next in u.seg.syncs
  {
  }

  lemma {:induction false} ExpireCouples(l: Link, now: time, timeout: nat, record: seq<Sent>, l': Link)
    requires Coupled(l) && Moves(l, Expire(now, timeout, record), l')
    ensures Coupled(l')
  {
    hide W.After, FlushEnded, Shipped, AllTruthful, Truthful, Coupled, Posted, OnlySends, RewoundQueues, TimedOutWindow;
    Uncouple(l);
    assert l'.ba == l.ba;
    if Expired(l.a.s.clock, now, timeout).state == Zombie {
      assert l'.ab == l.ab;
      NoneTruthful(W.After(l'.ab), W.After(l'.ba));
      Recouple(l, l', []);
    } else {
      var h := l.ab + [W.Timeout, W.EmitSync];
      var next := l.a.s.tx.next;
      ExpiryRuns(l.a, l.ab);
      FlushRuns(h, FlushStart(Retried(l.a.s, now, timeout), l.a.prio, None, now), l'.a.s, record, None, None,
                W.After(l'.ba));
      assert l'.ab == h + Shipped(l.a.prio, now, record);
      RewoundSide(W.After(l.ab), W.After(h), W.After(l'.ab));
      var m := Letter(Sync(StreamSync(Wire(next))), next, None, None);
      SyncTruthful(m, W.After(l'.ab), W.After(l'.ba));
      MoreTruthful([m], Posted(next, record, None, None), W.After(l'.ab), W.After(l'.ba));
      Recouple(l, l', [m] + Posted(next, record, None, None));
    }
  }

  lemma {:induction false} MoreTruthful(ms: seq<Letter>, more: seq<Letter>, out: W.System, back: W.System)
    requires AllTruthful(ms, out, back) && AllTruthful(more, out, back)
    ensures AllTruthful(ms + more, out, back)
  {
    forall m | m in ms + more
      ensures Truthful(m, out, back)
    {
    }
  }

  lemma {:induction false} NoneTruthful(out: W.System, back: W.System)
    ensures AllTruthful([], out, back)
  {
  }

  lemma {:induction false} SyncTruthful(m: Letter, out: W.System, back: W.System)
    requires m.frame == Sync(StreamSync(Wire(m.segment))) && m.segment in out.seg.syncs
    ensures AllTruthful([m], out, back)
  {
  }

  lemma {:induction false} TryEnqueue(p: Peer, w: W.System, packet: Packet, mode: S.SendMode, now: time)
    requires W.Shape(w) && (mode.Unreliable? ==> mode.timeout <= 0xffff)
    ensures Try(w, W.Enqueue(packet, mode, now)) ==
      w.(queues := w.queues.Enqueue(packet, mode, now),
         unrelPushed := if mode.Reliable? then w.unrelPushed else w.unrelPushed + [packet],
         relPushed := if mode.Reliable? then w.relPushed + [packet] else w.relPushed)
  {
    hide W.Shape, S.Queues.Enqueue;
  }

  lemma {:induction false} EnqueueCouples(l: Link, packet: Packet, mode: S.SendMode, now: time, l': Link)
    requires Coupled(l) && Moves(l, Enqueue(packet, mode, now), l')
    ensures Coupled(l')
  {
    hide W.After, AllTruthful, Truthful, Coupled, S.Queues.Enqueue;
    Uncouple(l);
    assert l'.ba == l.ba;
    AfterNext(l.ab, W.Enqueue(packet, mode, now));
    TryEnqueue(l.a, W.After(l.ab), packet, mode, now);
    NoneTruthful(W.After(l'.ab), W.After(l'.ba));
    Recouple(l, l', []);
  }

  lemma {:induction false} CloseCouples(l: Link, more: seq<Letter>, l': Link)
    requires Coupled(l) && Moves(l, Close(more), l')
    ensures Coupled(l')
  {
    hide W.After, AllTruthful, Truthful, Coupled;
    Uncouple(l);
    assert l'.ba == l.ba && l'.ab == l.ab;
    CloseTruthful(more, W.After(l'.ab), W.After(l'.ba));
    Recouple(l, l', more);
  }

  lemma {:induction false} CloseTruthful(more: seq<Letter>, out: W.System, back: W.System)
    requires forall m :: m in more ==> m.frame in {CloseRequest, CloseReply}
    ensures AllTruthful(more, out, back)
  {
  }

  /** Whatever an end does, the two directions go on as StreamChannel says. */
  lemma {:induction false} MoveCouples(l: Link, d: Deed, l': Link)
    requires Coupled(l) && Moves(l, d, l')
    ensures Coupled(l')
  {
    hide Coupled, Moves;
    match d
    case Enqueue(packet, mode, now) => EnqueueCouples(l, packet, mode, now, l');
    case Flush(now, record) => FlushCouples(l, now, record, l');
    case Frame(letter, now, record) => FrameCouples(l, letter, now, record, l');
    case SyncFrame(letter, now, record) => SyncCouples(l, letter, now, record, l');
    case Expire(now, timeout, record) => ExpireCouples(l, now, timeout, record, l');
    case Close(more) => CloseCouples(l, more, l');
  }

  lemma {:induction false} FlipCouples(l: Link)
    requires Coupled(l)
    ensures Coupled(l.Flip())
  {
    hide W.After, Half, AllTruthful;
  }

  lemma {:induction false} FreshCouples(prioA: Priorities, prioB: Priorities)
    ensures Coupled(FreshLink(prioA, prioB))
  {
    hide T.InitTx, T.Tx.Valid, S.Queues.Valid, C.State.Safe, R.Rx.Valid, P.Config.Valid;
    FreshHalf(prioA, prioB);
    FreshHalf(prioB, prioA);
  }

  lemma {:induction false} FreshHalf(prioA: Priorities, prioB: Priorities)
    ensures Half(FreshPeer(prioA), FreshPeer(prioB), W.After([]))
  {
    hide T.InitTx, T.Tx.Valid, S.Queues.Valid, C.State.Safe, R.Rx.Valid, P.Config.Valid, W.Shape;
    assert R.Skips(0) == [];
  }

  // ---- runs ----

  lemma {:induction false} RunCouples(start: Link, run: seq<Turn>)
    requires Coupled(start) && Run(start, run)
    ensures Coupled(EndOf(start, run))
    decreases |run|
  {
    hide Coupled, Moves;
    if run != [] {
      var front, t := run[..|run| - 1], run[|run| - 1];
      RunCouples(start, front);
      if t.first {
        MoveCouples(EndOf(start, front), t.deed, t.after);
      } else {
        FlipCouples(EndOf(start, front));
        MoveCouples(EndOf(start, front).Flip(), t.deed, t.after.Flip());
        FlipCouples(t.after.Flip());
      }
    }
  }

  /** At every point of every run of a connection each direction is in a state StreamChannel reaches, with the
      two endpoints' queues, segments and buffers for its parts. */
  lemma {:induction false} BothRefine(prioA: Priorities, prioB: Priorities, run: seq<Turn>)
    requires Run(FreshLink(prioA, prioB), run)
    ensures var l := EndOf(FreshLink(prioA, prioB), run);
      Half(l.a, l.b, W.After(l.ab)) && Half(l.b, l.a, W.After(l.ba))
  {
    hide FreshLink, Run, W.After, AllTruthful, Half;
    FreshCouples(prioA, prioB);
    RunCouples(FreshLink(prioA, prioB), run);
  }

  /** What reaches a user is what the other enqueued: the reliable packets a prefix, the others a subsequence. */
  ghost predicate Delivered(from: Peer, to: Peer) {
    exists us, rs :: W.Merge(to.mail.packets, us, rs) && U.IsSubsequence(us, from.loose) && rs <= from.bound
  }

  lemma {:induction false} HalfDelivers(from: Peer, to: Peer, actions: seq<W.Action>)
    requires Half(from, to, W.After(actions))
    ensures Delivered(from, to)
  {
    hide W.After, W.Merge, U.IsSubsequence;
    W.StreamDelivers(actions);
  }

  /** In every run of two endpoints, whatever the network does to their frames, both users receive what the
      other sent. */
  lemma {:induction false} BothDeliver(prioA: Priorities, prioB: Priorities, run: seq<Turn>)
    requires Run(FreshLink(prioA, prioB), run)
    ensures var l := EndOf(FreshLink(prioA, prioB), run); Delivered(l.a, l.b) && Delivered(l.b, l.a)
  {
    hide FreshLink, Run, W.After, Half, Delivered;
    BothRefine(prioA, prioB, run);
    var l := EndOf(FreshLink(prioA, prioB), run);
    HalfDelivers(l.a, l.b, l.ab);
    HalfDelivers(l.b, l.a, l.ba);
  }

  /** An acknowledgement that is not overtaken when it reaches an endpoint passes its nonce check. */
  ghost predicate Trusted(l: Link, letter: Letter) {
    letter.frame.Stream? && letter.frame.content.ack.Some? ==>
      var tx, ack := l.a.s.tx, AsSent(letter.frame.content.ack.value);
      && letter.ack.Some? && (tx.Accepts(ack.segmentId) <==> tx.base <= letter.ack.value.base)
      && (tx.Accepts(ack.segmentId) ==> tx.Trusts(ack.segmentId, Widened(ack.history), ack.checksum))
  }

  lemma {:induction false} CoupledTrusts(l: Link, letter: Letter, now: time, record: seq<Sent>)
    requires Coupled(l) && Timely(l, Frame(letter, now, record))
    ensures Trusted(l, letter)
  {
    hide W.After, W.Shape, SegmentTrue, Opened, W.InLap, Coupled, Widened, T.Tx.Accepts, T.Tx.Trusts;
    Uncouple(l);
    assert Truthful(letter, W.After(l.ba), W.After(l.ab));
    AckGiven(letter.frame.content, letter, W.After(l.ab));
    if letter.frame.content.ack.Some? {
      TrustedThere(W.After(l.ab), letter.ack.value);
    }
  }

  /** So it is in every run, for every frame that is not too old. */
  lemma {:induction false} AcksTrusted(prioA: Priorities, prioB: Priorities, run: seq<Turn>, letter: Letter, now: time,
                                       record: seq<Sent>)
    requires Run(FreshLink(prioA, prioB), run)
    requires Timely(EndOf(FreshLink(prioA, prioB), run), Frame(letter, now, record))
    ensures Trusted(EndOf(FreshLink(prioA, prioB), run), letter)
  {
    hide FreshLink, Run, Coupled, Timely, Trusted;
    FreshCouples(prioA, prioB);
    RunCouples(FreshLink(prioA, prioB), run);
    CoupledTrusts(EndOf(FreshLink(prioA, prioB), run), letter, now, record);
  }

  lemma {:induction false} TrustedThere(w: W.System, ack: G.Ack)
    requires W.Shape(w) && ack in w.seg.acks && w.seg.tx.next <= ack.base + G.MAX_AGE
    ensures |ack.heard| == 32
    ensures var tx := w.seg.tx;
      && (tx.Accepts(Wire(ack.base)) <==> tx.base <= ack.base)
      && (tx.Accepts(Wire(ack.base)) ==> tx.Trusts(Wire(ack.base), ack.heard, ack.checksum))
  {
    G.AckMeaning(w.seg, ack);
  }

  // ---- the endpoint's own methods ----

  function FramesOf(ms: seq<Letter>): seq<Sent>
    decreases |ms|
  {
    if ms == [] then [] else FramesOf(ms[..|ms| - 1]) + [ms[|ms| - 1].frame]
  }

  lemma {:induction false} FramesConcat(a: seq<Letter>, b: seq<Letter>)
    ensures FramesOf(a + b) == FramesOf(a) + FramesOf(b)
    decreases |b|
  {
    if b == [] {
      assert a + b == a;
    } else {
      FramesConcat(a, b[..|b| - 1]);
      assert (a + b)[..|a + b| - 1] == a + b[..|b| - 1];
    }
  }

  lemma {:induction false} PostedFrames(next: nat, record: seq<Sent>, ack: Option<G.Ack>, rel: Option<nat>)
    ensures FramesOf(Posted(next, record, ack, rel)) == record
    decreases |record|
  {
    if record != [] {
      var front := record[..|record| - 1];
      PostedFrames(next, front, ack, rel);
      var letters := Posted(next, record, ack, rel);
      assert letters[..|letters| - 1] == Posted(next, front, ack, rel);
    }
  }

  /** The endpoint is what the peer says, and the host has been given its frames. */
  ghost predicate Is(e: Endpoint, p: Peer)
    reads e
  {
    && p.s == e.Sending() && p.rx == e.segmentRx && p.mail == e.Inbox() && p.prio == e.prio
    && e.frames == FramesOf(p.letters)
  }

  method Opens(timeout: nat, prio: Priorities) returns (e: Endpoint)
    ensures fresh(e) && e.Valid() && e.stateId == Active && Is(e, FreshPeer(prio))
  {
    hide Sound, T.Tx.Valid, S.Queues.Valid, C.State.Safe, R.Rx.Valid, P.Config.Valid;
    e := new Endpoint(timeout, prio);
    e.Init();
  }

  /** The user's call. */
  method Enqueues(e: Endpoint, packet: Packet, mode: S.SendMode, now: time, ghost p: Peer) returns (ghost p': Peer)
    requires e.Valid() && e.stateId == Active && Is(e, p) && (mode.Unreliable? ==> mode.timeout <= 0xffff)
    modifies e
    ensures e.Valid() && Is(e, p') && Does(p, Enqueue(packet, mode, now), p')
  {
    hide Sound, S.Queues.Enqueue, S.Queues.Valid;
    e.Enqueue(packet, mode, now);
    p' := p.(s := e.Sending(), loose := if mode.Reliable? then p.loose else p.loose + [packet],
             bound := if mode.Reliable? then p.bound + [packet] else p.bound);
  }

  lemma {:induction false} FlushDone(p: Peer, now: time, record: seq<Sent>, s: Sender) returns (p': Peer)
    requires p.s.clock.state == Active && FlushEnded(FlushStart(p.s, p.prio, None, now), s, record)
    ensures Does(p, Flush(now, record), p') && p' == p.(s := s, letters := p'.letters)
    ensures FramesOf(p'.letters) == FramesOf(p.letters) + record
  {
    hide FlushEnded, T.Tx.Valid, S.Queues.Valid, C.State.Safe, R.Rx.Valid;
    var posted := Posted(p.s.tx.next, record, None, None);
    PostedFrames(p.s.tx.next, record, None, None);
    FramesConcat(p.letters, posted);
    p' := p.(s := s, letters := p.letters + posted);
  }

  method Flushes(e: Endpoint, now: time, ghost p: Peer) returns (ghost record: seq<Sent>, ghost p': Peer)
    requires e.Valid() && e.stateId == Active && Is(e, p)
    modifies e
    ensures e.Valid() && Is(e, p') && Does(p, Flush(now, record), p')
  {
    hide Sound, FlushEnded, Does;
    record := e.Flush(now);
    p' := FlushDone(p, now, record, e.Sending());
  }

  lemma {:induction false} FrameDone(p: Peer, letter: Letter, now: time, record: seq<Sent>, s: Sender)
    returns (p': Peer)
    requires p.s.clock.state == Active && p.s.clock.NotBefore(now)
    requires letter.frame.Stream? && Carries(letter.frame.content)
    requires var t, heard := Opened(p, letter.frame.content), Heard(p, letter.frame.content, now);
      FlushEnded(FlushStart(heard, p.prio, ReplyTo(t), now), s, record)
    ensures Does(p, Frame(letter, now, record), p') && p'.s == s && p'.prio == p.prio
    ensures var t := Opened(p, letter.frame.content); p'.rx == t.rx && p'.mail == t.mail
    ensures FramesOf(p'.letters) == FramesOf(p.letters) + record
  {
    hide FlushEnded, Opened, Heard, ReplyTo, RelOf, Report;
    var t, next := Opened(p, letter.frame.content), Heard(p, letter.frame.content, now).tx.next;
    var posted := Posted(next, record, Some(Report(t.rx)), RelOf(t));
    PostedFrames(next, record, Some(Report(t.rx)), RelOf(t));
    FramesConcat(p.letters, posted);
    p' := p.(s := s, rx := t.rx, mail := t.mail, letters := p.letters + posted);
  }

  /** A frame of the other side arrives, with whatever indices go with it. */
  method TakesFrame(e: Endpoint, ghost letter: Letter, kind: F.FrameType, payload: seq<byte>, genuine: bool, now: time,
                    ghost p: Peer)
    returns (ghost record: seq<Sent>, ghost p': Peer)
    requires e.Valid() && e.stateId == Active && Is(e, p) && p.s.clock.NotBefore(now)
    requires letter.frame.Stream? && Carries(letter.frame.content)
    requires kind == F.KindOf(letter.frame.content) && payload == F.Payload(F.FrameOf(letter.frame.content))
    modifies e
    ensures e.Valid() && Is(e, p') && Does(p, Frame(letter, now, record), p')
  {
    hide Sound, FlushEnded, FrameTaken, SenderAfter, ReplyTo, Does, F.FrameOf, Kept;
    PayloadIs(letter.frame.content);
    record := e.HandleFrame(kind, payload, genuine, now);
    p' := FrameDone(p, letter, now, record, e.Sending());
  }

  lemma {:induction false} SyncDone(p: Peer, letter: Letter, now: time, record: seq<Sent>, s: Sender)
    returns (p': Peer)
    requires p.s.clock.state == Active && letter.frame.Sync?
    requires var rx, m := SyncedRx(p.rx, letter.frame.next), SyncTaken(p.rx, p.mail, letter.frame.next);
      FlushEnded(FlushStart(p.s, p.prio, SyncReply(rx, m), now), s, record)
    ensures Does(p, SyncFrame(letter, now, record), p') && p'.s == s && p'.prio == p.prio
    ensures p'.rx == SyncedRx(p.rx, letter.frame.next) && p'.mail == SyncTaken(p.rx, p.mail, letter.frame.next)
    ensures FramesOf(p'.letters) == FramesOf(p.letters) + record
  {
    hide FlushEnded, SyncedRx, SyncTaken, SyncReply, Report;
    var rx, m := SyncedRx(p.rx, letter.frame.next), SyncTaken(p.rx, p.mail, letter.frame.next);
    var posted := Posted(p.s.tx.next, record, Some(Report(rx)), Some(m.rel.next));
    PostedFrames(p.s.tx.next, record, Some(Report(rx)), Some(m.rel.next));
    FramesConcat(p.letters, posted);
    p' := p.(s := s, rx := rx, mail := m, letters := p.letters + posted);
  }

  /** A sync of the other side arrives. */
  method TakesSync(e: Endpoint, ghost letter: Letter, payload: seq<byte>, genuine: bool, now: time, ghost p: Peer)
    returns (ghost record: seq<Sent>, ghost p': Peer)
    requires e.Valid() && e.stateId == Active && Is(e, p) && p.s.clock.NotBefore(now)
    requires letter.frame.Sync? && payload == EncodeSync(letter.frame.next)
    modifies e
    ensures e.Valid() && Is(e, p') && Does(p, SyncFrame(letter, now, record), p')
  {
    hide Sound, FlushEnded, SyncedRx, SyncTaken, SyncReply, DecodeSync, EncodeSync, Does, Kept;
    SyncRoundTrip(letter.frame.next, []);
    assert payload + [] == payload;
    record := e.HandleFrame(F.FrameType.StreamSync, payload, genuine, now);
    p' := SyncDone(p, letter, now, record, e.Sending());
  }

  lemma {:induction false} ExpireDone(p: Peer, now: time, timeout: nat, record: seq<Sent>, s: Sender)
    returns (p': Peer)
    requires p.s.clock.state == Active && p.s.clock.timer.Some?
    requires Expired(p.s.clock, now, timeout).state != Zombie
    requires FlushEnded(FlushStart(Retried(p.s, now, timeout), p.prio, None, now), s, record)
    ensures Does(p, Expire(now, timeout, record), p') && p' == p.(s := s, letters := p'.letters)
    ensures FramesOf(p'.letters) == FramesOf(p.letters) + [Sync(StreamSync(Wire(p.s.tx.next)))] + record
  {
    hide FlushEnded, Retried, Expired, T.Tx.Valid, S.Queues.Valid, C.State.Safe, R.Rx.Valid;
    var next := p.s.tx.next;
    var sync, posted := [Letter(Sync(StreamSync(Wire(next))), next, None, None)], Posted(next, record, None, None);
    PostedFrames(next, record, None, None);
    FramesConcat(p.letters, sync);
    FramesConcat(p.letters + sync, posted);
    assert FramesOf(sync) == [sync[0].frame];
    p' := p.(s := s, letters := p.letters + sync + posted);
  }

  lemma {:induction false} DueRuns(s: Sender, timeout: nat)
    requires Sound(s, timeout) && s.clock.state == Active && s.clock.due.Some?
    ensures s.clock.timer.Some?
  {
  }

  lemma {:induction false} ExpiredState(before: Timing, now: time, next: nat, after: Timing, timeout: nat)
    requires before.state == Active && before.timer.Some?
    requires Timer.Steps(before, Moment(Event.Expiry, now, next, after), timeout)
    ensures after.state == Expired(before, now, timeout).state
  {
  }

  method Expires(e: Endpoint, now: time, ghost p: Peer) returns (ghost record: seq<Sent>, ghost p': Peer)
    requires e.Valid() && e.stateId == Active && Is(e, p) && e.due.Some? && e.due.value <= now
    modifies e
    ensures e.Valid() && Is(e, p') && Does(p, Expire(now, e.timeoutTime, record), p')
  {
    hide FlushEnded, Retried, Expired, Sound, Timer.Steps;
    DueRuns(e.Sending(), e.timeoutTime);
    var terminate: bool;
    terminate, record := e.HandleRtoTimer(now);
    ExpiredState(p.s.clock, now, p.s.tx.next, e.Clock(), e.timeoutTime);
    p' := p.(s := e.Sending());
    if !terminate {
      p' := ExpireDone(p, now, e.timeoutTime, record, e.Sending());
    }
  }

  // ---- closing ----

  lemma {:induction false} CloseDone(p: Peer, s: Sender, frame: Option<Sent>) returns (more: seq<Letter>, p': Peer)
    requires s == p.s.(clock := s.clock) && (frame.Some? ==> frame.value in {CloseRequest, CloseReply})
    ensures Does(p, Close(more), p') && p' == p.(s := s, letters := p'.letters)
    ensures FramesOf(p'.letters) == FramesOf(p.letters) + if frame.Some? then [frame.value] else []
  {
    hide FlushEnded, T.Tx.Valid, S.Queues.Valid, C.State.Safe, R.Rx.Valid;
    more := if frame.Some? then [Letter(frame.value, 0, None, None)] else [];
    p' := p.(s := s, letters := p.letters + more);
    FramesConcat(p.letters, more);
    if frame.Some? {
      assert FramesOf(more) == [more[0].frame];
    }
  }

  method Disconnects(e: Endpoint, now: time, ghost p: Peer) returns (ghost more: seq<Letter>, ghost p': Peer)
    requires e.Valid() && Is(e, p)
    modifies e
    ensures e.Valid() && Is(e, p') && Does(p, Close(more), p')
  {
    hide Sound, Does;
    ghost var active := e.stateId == Active;
    e.Disconnect(now);
    more, p' := CloseDone(p, e.Sending(), if active then Some(CloseRequest) else None);
  }

  /** A close frame or its answer arrives. */
  method TakesClose(e: Endpoint, kind: F.FrameType, payload: seq<byte>, genuine: bool, now: time, ghost p: Peer)
    returns (ghost more: seq<Letter>, ghost p': Peer)
    requires e.Valid() && Is(e, p) && p.s.clock.NotBefore(now) && kind in {F.Close, F.CloseAck}
    modifies e
    ensures e.Valid() && Is(e, p') && Does(p, Close(more), p')
  {
    hide Sound, Does, Kept;
    ghost var answers := kind == F.Close && genuine && e.stateId in {Active, Closing, Closed};
    var _ := e.HandleFrame(kind, payload, genuine, now);
    more, p' := CloseDone(p, e.Sending(), if answers then Some(CloseReply) else None);
  }

  /** The timer expires when the endpoint is no longer active. */
  method ExpiresClosing(e: Endpoint, now: time, ghost p: Peer) returns (ghost more: seq<Letter>, ghost p': Peer)
    requires e.Valid() && e.stateId != Active && Is(e, p) && e.due.Some? && e.due.value <= now
    modifies e
    ensures e.Valid() && Is(e, p') && Does(p, Close(more), p')
  {
    hide Sound, Does, Timer.Steps, Expired;
    ghost var closing := e.stateId == Closing;
    var terminate, _ := e.HandleRtoTimer(now);
    more, p' := CloseDone(p, e.Sending(), if closing && !terminate then Some(CloseRequest) else None);
  }
}
