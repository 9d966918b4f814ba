/** What two endpoints achieve: with nothing lost all that is sent arrives, and what has arrived on the reliable
    channel is answered and then forgotten by its sender. */
module ConnectionProgress {
  import opened Words
  import opened Fragments
  import opened Codec
  import Timer
  import opened Mailbox
  import opened Endpoint
  import opened Connection
  import S = Sending
  import R = SegmentRx
  import L = ReliableChannel
  import G = SegmentChannel
  import W = StreamChannel
  import D = StreamComplete
  import EndpointEffects
  import Reliable

  // ---- nothing lost ----

  /** Everything the one has sent has been taken in by the other. */
  ghost predicate AllIn(from: Peer, to: Peer) {
    |to.rx.log| == from.s.tx.next && forall j :: 0 <= j < |to.rx.log| ==> to.rx.log[j].Some?
  }

  /** Of the packets of each channel all are there once all their fragments have been sent. */
  ghost predicate AllThere(from: Peer, to: Peer) {
    exists us, rs :: W.Merge(to.mail.packets, us, rs) && Both(from, us, rs)
  }

  ghost predicate Both(from: Peer, us: seq<Packet>, rs: seq<Packet>) {
    && (from.s.queues.rel.maxAck == |FragmentizeAll(from.bound, S.FRAGMENT_SIZE)| ==> rs == from.bound)
    && (from.s.queues.unrel.next == |FragmentizeAll(from.loose, S.FRAGMENT_SIZE)| ==> us == from.loose)
  }

  lemma {:induction false} HalfAllIn(from: Peer, to: Peer, actions: seq<W.Action>)
    requires Half(from, to, W.After(actions)) && AllIn(from, to)
    ensures D.AllIn(W.After(actions))
  {
    hide W.After;
    assert W.Shape(W.After(actions));
  }

  lemma {:induction false} HalfComplete(from: Peer, to: Peer, actions: seq<W.Action>)
    requires Half(from, to, W.After(actions)) && AllIn(from, to) && D.NoSync(actions)
    ensures to.mail.rel.next == from.s.queues.rel.maxAck && AllThere(from, to)
  {
    hide W.After, W.Merge, FragmentizeAll, AllIn;
    HalfAllIn(from, to, actions);
    D.NothingLostAllArrives(actions);
    var us, rs :| W.Merge(W.After(actions).mail.packets, us, rs) && D.Complete(W.After(actions), us, rs);
    assert Both(from, us, rs);
  }

  /** In every run of two endpoints, whatever else goes on: if all that the first has sent has been taken in, and
      no sync was, the second's reliable receiver is as far as the first ever got, and its user has the packets of
      both channels, all of those whose fragments have all been sent. */
  lemma {:induction false} NothingLostAllArrives(prioA: Priorities, prioB: Priorities, run: seq<Turn>)
    requires Run(FreshLink(prioA, prioB), run)
    ensures var l := EndOf(FreshLink(prioA, prioB), run);
      AllIn(l.a, l.b) && D.NoSync(l.ab) ==> l.b.mail.rel.next == l.a.s.queues.rel.maxAck && AllThere(l.a, l.b)
  {
    hide FreshLink, Run, W.After, Half, AllIn, AllThere, D.NoSync;
    BothRefine(prioA, prioB, run);
    var l := EndOf(FreshLink(prioA, prioB), run);
    if AllIn(l.a, l.b) && D.NoSync(l.ab) {
      HalfComplete(l.a, l.b, l.ab);
    }
  }

  // ---- answers ----

  /** The first frame an end sends in answer. */
  lemma {:induction false} FirstPosted(next: nat, record: seq<Sent>, ack: Option<G.Ack>, rel: Option<nat>)
    requires record != []
    ensures var posted := Posted(next, record, ack, rel);
      posted != [] && posted[0] == Letter(record[0], next, ack, rel)
    decreases |record|
  {
    if |record| > 1 {
      FirstPosted(next, record[..|record| - 1], ack, rel);
    }
  }

  /** A frame which brings a reliable datagram to light is answered, and the answer names the fragment expected
      next. */
  lemma {:induction false} ReliableAnswered(p: Peer, letter: Letter, now: Timer.time, record: seq<Sent>, p': Peer)
    requires Does(p, Frame(letter, now, record), p')
    requires exists d :: d in Opened(p, letter.frame.content).taken && !d.unrel
    ensures |p'.letters| > |p.letters|
    ensures var m := p'.letters[|p.letters|];
      && m.frame.Stream? && m.frame.content.ack.Some? && m.rel == Some(p'.mail.rel.next)
      && m.frame.content.ack.value.relFragmentId == Some(Wire(p'.mail.rel.next))
      && m.frame.content.ack.value.segmentId == Wire(|p'.rx.log|)
  {
    hide FrameTaken, SenderAfter, Report, Flushed;
    var t, s := Opened(p, letter.frame.content), Heard(p, letter.frame.content, now);
    EndpointEffects.AnswerNames(t);
    EndpointEffects.AnyReliableIsOne(t.taken);
    FirstPosted(s.tx.next, record, Some(Report(t.rx)), RelOf(t));
    EndpointEffects.FirstFrame(FlushStart(s, p.prio, ReplyTo(t), now), p'.s, record);
  }

  lemma {:induction false} NamedWasReceived(actions: seq<W.Action>, r: nat)
    requires r in W.After(actions).relAcks
    ensures var s := W.After(actions); r <= s.mail.rel.next <= s.queues.rel.maxAck && s.queues.rel.Valid()
  {
    var v := W.RunKeepsInv(actions);
    hide W.After, W.CargoHolds, W.Merge;
    assert L.AcksHold(v.r.acks, v.r.start, v.r.rx.next);
  }

  /** Fragments before index r are kept no longer, and no others are lost. */
  predicate Forgot(before: Reliable.Tx, r: nat, after: Reliable.Tx) {
    && after.base == (if r > before.base then r else before.base)
    && after.base - before.base <= |before.queue|
    && after.queue == before.queue[after.base - before.base..]
  }

  lemma {:induction false} HeardForgets(s: Sender, ack: StreamAck, r: nat, now: Timer.time)
    requires s.clock.NotBefore(now) && ack.relFragmentId == Some(Wire(r))
    requires s.queues.rel.Valid() && r <= s.queues.rel.maxAck <= r + L.MAX_AGE
    ensures Forgot(s.queues.rel, r, AckedSender(s, ack, now).queues.rel)
  {
    hide AckedTx, AckedWindow, ShowsDrop, Timer.Answered, Reliable.Tx.Acknowledge;
    L.AckOf(s.queues.rel, r);
    assert s.queues.rel.queue[0..] == s.queues.rel.queue;
  }

  /** Once an answer which names a fragment is heard, none before it is kept for sending; and what was not named
      is kept. */
  lemma {:induction false} AnswerClears(l: Link, letter: Letter, now: Timer.time, record: seq<Sent>, l': Link)
    requires Coupled(l) && Moves(l, Frame(letter, now, record), l')
    requires letter.frame.content.ack.Some? && letter.rel.Some?
    ensures Forgot(l.a.s.queues.rel, letter.rel.value, l'.a.s.queues.rel)
  {
    hide W.After, FlushEnded, SegmentTrue, Opened, Heard, Shipped, Posted, Forgot, Outward, Inward, AckedSender;
    hide ReplyTo, Report, RelOf, W.InLap, Widened, Coupled;
    var c, r := letter.frame.content, letter.rel.value;
    Uncouple(l);
    assert Truthful(letter, W.After(l.ba), W.After(l.ab));
    NamedWasReceived(l.ab, r);
    HeardIs(l.a, c, now);
    HeardForgets(l.a.s, AsSent(c.ack.value), r, now);
    FlushKeepsQueue(FlushStart(Heard(l.a, c, now), l.a.prio, ReplyTo(Opened(l.a, c)), now), l'.a.s, record);
    SameForgot(l.a.s.queues.rel, r, Heard(l.a, c, now).queues.rel, l'.a.s.queues.rel);
  }

  lemma {:induction false} SameForgot(before: Reliable.Tx, r: nat, after: Reliable.Tx, later: Reliable.Tx)
    requires Forgot(before, r, after) && later.base == after.base && later.queue == after.queue
    ensures Forgot(before, r, later)
  {
  }

  lemma {:induction false} FlushKeepsQueue(from: FlushStart, s: Sender, record: seq<Sent>)
    requires FlushEnded(from, s, record)
    ensures s.queues.rel.base == from.s.queues.rel.base && s.queues.rel.queue == from.s.queues.rel.queue
  {
  }
}
