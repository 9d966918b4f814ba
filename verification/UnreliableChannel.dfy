/** The unreliable channel end to end: entries expire at any time, and any in-order subsequence of
    what was sent arrives. However much is missing, no packet is put together from parts of two. */
module UnreliableChannel {
  import opened Words
  import opened Fragments
  import opened Unreliable

  /** Where a fragment comes from: which packet, and which part of it. */
  datatype Tag = Tag(packet: nat, part: nat)

  /** `net` lists the fragments sent, the i-th under index `start + i`. The tags record where queued
      and sent fragments come from; `awaited` is the index behind the receiver's base identifier;
      positions before `seen` have arrived or been lost. Neither end reads these. */
  datatype System = System(
    size: nat,
    start: nat,
    packets: seq<Packet>,
    expiries: seq<u64>,
    tx: Tx,
    queued: seq<Tag>,
    net: seq<Fragment>,
    sent: seq<Tag>,
    rx: Rx,
    seen: nat,
    awaited: nat,
    delivered: seq<Packet>,
    origins: seq<nat>)

  datatype Action =
    | Push(packet: Packet, expireTime: u64)
    | Expire(now: u64)
    | Send
    | Receive(position: nat)
    | Reset

  /** A lap of identifiers may not go by between two fragments the receiver could join. */
  ghost predicate Enabled(s: System, a: Action) {
    match a
    case Push(_, _) => true
    case Expire(_) => true
    case Send => s.tx.queue != []
    case Receive(i) => s.seen <= i < |s.net| && (s.rx.build.Some? ==> i < s.awaited + LAP)
    case Reset => true
  }

  function Tags(packet: nat, n: nat): (ts: seq<Tag>)
    ensures |ts| == n && forall j :: 0 <= j < n ==> ts[j] == Tag(packet, j)
  {
    seq(n, j requires 0 <= j => Tag(packet, j))
  }

  function DropTags(tags: seq<Tag>, keep: nat): seq<Tag> {
    if keep <= |tags| then tags[|tags| - keep..] else tags
  }

  ghost function Step(s: System, a: Action): System
    requires s.size > 0 && Enabled(s, a)
  {
    match a
    case Push(p, e) =>
      s.(packets := s.packets + [p], expiries := s.expiries + [e], tx := s.tx.Enqueue(p, e, s.size),
         queued := s.queued + Tags(|s.packets|, |Fragmentize(p, s.size)|))
    case Expire(now) =>
      s.(tx := s.tx.Expire(now), queued := DropTags(s.queued, |s.tx.Expire(now).queue|))
    case Send =>
      s.(tx := s.tx.Send(), net := s.net + [s.tx.queue[0].fragment],
         queued := DropTags(s.queued, |s.tx.queue| - 1), sent := s.sent + s.queued[..if s.queued == [] then 0 else 1])
    case Receive(i) =>
      var id := Wire(s.start + i);
      var f := s.net[i];
      var done := s.rx.Completed(id, f, s.size);
      s.(rx := s.rx.Receive(id, f, s.size), seen := i + 1,
         awaited := if s.rx.Takes(id, f, s.size) then i + 1 else s.awaited,
         delivered := s.delivered + done,
         origins := s.origins + if done != [] && i < |s.sent| then [s.sent[i].packet] else [])
    case Reset => s.(rx := s.rx.Reset())
  }

  function Init(start: nat, size: nat): System {
    System(size, start, [], [], Tx([], start), [], [], [], Rx(Wire(start), None), 0, 0, [], [])
  }

  ghost function After(s: System, actions: seq<Action>): (t: System)
    requires s.size > 0
    ensures t.size == s.size
    decreases |actions|
  {
    if actions == [] then s
    else
      var t := After(s, actions[..|actions| - 1]);
      var a := actions[|actions| - 1];
      if Enabled(t, a) then Step(t, a) else t
  }

  // ---- fragments and their tags ----

  function Count(packets: seq<Packet>, size: nat, packet: nat): nat
    requires size > 0 && packet < |packets|
  {
    |Fragmentize(packets[packet], size)|
  }

  ghost predicate TagOk(packets: seq<Packet>, size: nat, t: Tag)
    requires size > 0
  {
    t.packet < |packets| && t.part < Count(packets, size, t.packet)
  }

  function Source(packets: seq<Packet>, size: nat, t: Tag): Fragment
    requires size > 0 && TagOk(packets, size, t)
  {
    Fragmentize(packets[t.packet], size)[t.part]
  }

  /** The bytes of a packet up to and including one of its parts. */
  function UpTo(packets: seq<Packet>, size: nat, t: Tag): Packet
    requires size > 0 && TagOk(packets, size, t)
  {
    var p := packets[t.packet];
    var end := (t.part + 1) * size;
    if t.part + 1 < Count(packets, size, t.packet) && end <= |p| then p[..end] else p
  }

  lemma {:induction false} SourceShape(packets: seq<Packet>, size: nat, t: Tag)
    requires size > 0 && TagOk(packets, size, t)
    ensures var f := Source(packets, size, t);
      && f.first == (t.part == 0)
      && f.last == (t.part + 1 == Count(packets, size, t.packet))
      && SizeIsValid(f, size)
      && (f.last ==> UpTo(packets, size, t) == packets[t.packet])
      && (t.part == 0 ==> f.data == UpTo(packets, size, t))
      && (t.part > 0 ==> UpTo(packets, size, t) == UpTo(packets, size, Tag(t.packet, t.part - 1)) + f.data)
  {
    hide Split;
    var p, n := packets[t.packet], t.part;
    SplitShape(p, true, size, n);
    if n == 0 {
      FirstBytes(p, size);
    } else {
      SplitShape(p, true, size, n - 1);
      assert (n - 1 + 1) * size == n * size;
      JoinRanges(p, n * size, if Source(packets, size, t).last then |p| else (n + 1) * size);
    }
  }

  lemma {:induction false} FirstBytes(p: Packet, size: nat)
    ensures 0 * size == 0 && (0 + 1) * size == size && p[0..] == p && (size <= |p| ==> p[0..size] == p[..size])
  {
  }

  lemma {:induction false} JoinRanges(p: Packet, a: nat, b: nat)
    requires a <= b <= |p|
    ensures p[..b] == p[..a] + p[a..b] && p[a..|p|] == p[a..] && p[..|p|] == p
  {
  }

  // ---- the order of tags ----

  predicate Joins(t: Tag, u: Tag) {
    u == Tag(t.packet, t.part + 1) || (u.part == 0 && u.packet > t.packet)
  }

  /** Every part follows its predecessor directly, or starts a later packet. */
  ghost predicate Chain(ts: seq<Tag>) {
    && (ts != [] ==> ts[0].part == 0)
    && forall i :: 0 < i < |ts| ==> Joins(ts[i - 1], ts[i])
  }

  predicate Before(t: Tag, u: Tag) {
    t.packet < u.packet || (t.packet == u.packet && t.part < u.part)
  }

  lemma {:induction false} ChainOrdered(ts: seq<Tag>, i: nat, j: nat)
    requires Chain(ts) && i < j < |ts|
    ensures Before(ts[i], ts[j])
    decreases j
  {
    assert Joins(ts[j - 1], ts[j]);
    if i < j - 1 {
      ChainOrdered(ts, i, j - 1);
    }
  }

  // ---- the invariant ----

  ghost predicate QueueHolds(packets: seq<Packet>, expiries: seq<u64>, size: nat, queue: seq<Entry>, queued: seq<Tag>)
    requires size > 0
  {
    && |expiries| == |packets| && |queue| == |queued|
    && forall i :: 0 <= i < |queue| ==>
         && TagOk(packets, size, queued[i])
         && queue[i] == Entry(Source(packets, size, queued[i]), expiries[queued[i].packet])
  }

  ghost predicate NetHolds(packets: seq<Packet>, size: nat, net: seq<Fragment>, sent: seq<Tag>)
    requires size > 0
  {
    && |net| == |sent|
    && forall i :: 0 <= i < |net| ==> TagOk(packets, size, sent[i]) && net[i] == Source(packets, size, sent[i])
  }

  /** What is under construction is the packet of the last fragment taken, as far as that fragment. */
  ghost predicate RxHolds(packets: seq<Packet>, size: nat, start: nat, sent: seq<Tag>, rx: Rx, awaited: nat, seen: nat)
    requires size > 0
  {
    rx.build.Some? ==>
      && 0 < awaited <= seen <= |sent|
      && rx.baseId == Wire(start + awaited)
      && var t := sent[awaited - 1];
         && TagOk(packets, size, t) && t.part + 1 < Count(packets, size, t.packet)
         && rx.build.value == UpTo(packets, size, t)
  }

  ghost predicate Increasing(ids: seq<nat>) {
    forall i, j :: 0 <= i < j < |ids| ==> ids[i] < ids[j]
  }

  ghost predicate DeliveredHolds(packets: seq<Packet>, delivered: seq<Packet>, origins: seq<nat>) {
    && |delivered| == |origins| && Increasing(origins)
    && forall k :: 0 <= k < |origins| ==> origins[k] < |packets| && delivered[k] == packets[origins[k]]
  }

  /** Nothing which may still arrive belongs to a packet already returned. */
  ghost predicate Fresh(origins: seq<nat>, tags: seq<Tag>, seen: nat) {
    forall k, j :: 0 <= k < |origins| && seen <= j < |tags| ==> origins[k] < tags[j].packet
  }

  ghost predicate Inv(s: System) {
    && s.size > 0
    && QueueHolds(s.packets, s.expiries, s.size, s.tx.queue, s.queued)
    && NetHolds(s.packets, s.size, s.net, s.sent)
    && s.seen <= |s.sent|
    && Chain(s.sent + s.queued)
    && RxHolds(s.packets, s.size, s.start, s.sent, s.rx, s.awaited, s.seen)
    && DeliveredHolds(s.packets, s.delivered, s.origins)
    && Fresh(s.origins, s.sent + s.queued, s.seen)
  }

  // ---- each action keeps it ----

  lemma {:induction false} MorePackets(packets: seq<Packet>, p: Packet, size: nat, t: Tag)
    requires size > 0 && TagOk(packets, size, t)
    ensures TagOk(packets + [p], size, t)
    ensures Source(packets + [p], size, t) == Source(packets, size, t)
    ensures UpTo(packets + [p], size, t) == UpTo(packets, size, t)
    ensures Count(packets + [p], size, t.packet) == Count(packets, size, t.packet)
  {
  }

  lemma {:induction false} ChainExtend(ts: seq<Tag>, n: nat, packet: nat)
    requires Chain(ts)
    requires forall i :: 0 <= i < |ts| ==> ts[i].packet < packet
    ensures Chain(ts + Tags(packet, n))
  {
    var all := ts + Tags(packet, n);
    forall i | 0 < i < |all|
      ensures Joins(all[i - 1], all[i])
    {
    }
  }

  lemma {:induction false} PushKeepsInv(s: System, p: Packet, e: u64)
    requires Inv(s)
    ensures Inv(Step(s, Push(p, e)))
  {
    var t := Step(s, Push(p, e));
    forall g: Tag | TagOk(s.packets, s.size, g)
      ensures TagOk(t.packets, s.size, g) && Source(t.packets, s.size, g) == Source(s.packets, s.size, g)
      ensures UpTo(t.packets, s.size, g) == UpTo(s.packets, s.size, g)
    {
      MorePackets(s.packets, p, s.size, g);
    }
    var n := |Fragmentize(p, s.size)|;
    ChainExtend(s.sent + s.queued, n, |s.packets|);
    assert t.sent + t.queued == s.sent + s.queued + Tags(|s.packets|, n);
  }

  lemma {:induction false} SendKeepsInv(s: System)
    requires Inv(s) && Enabled(s, Send)
    ensures Inv(Step(s, Send))
  {
    var t := Step(s, Send);
    assert t.sent + t.queued == s.sent + s.queued;
  }

  /** Expiry cannot stop inside a packet: all its fragments share one expiry time. */
  lemma {:induction false} ExpiryStopsAtPacket(s: System, now: u64)
    requires Inv(s)
    ensures var d := |s.queued| - |s.tx.Expire(now).queue|;
      && 0 <= d <= |s.queued|
      && s.tx.Expire(now).queue == s.tx.queue[d..]
      && (0 < d < |s.queued| ==> s.queued[d].part == 0)
  {
    UnexpiredIsSuffix(s.tx.queue, now);
    var d := |s.queued| - |s.tx.Expire(now).queue|;
    if 0 < d < |s.queued| {
      var all := s.sent + s.queued;
      assert all[|s.sent| + d - 1] == s.queued[d - 1] && all[|s.sent| + d] == s.queued[d];
      assert Joins(s.queued[d - 1], s.queued[d]);
      assert s.tx.queue[d - 1].expireTime == s.expiries[s.queued[d - 1].packet];
      assert s.tx.queue[d].expireTime == s.expiries[s.queued[d].packet];
    }
  }

  lemma {:induction false} ChainCut(sent: seq<Tag>, queued: seq<Tag>, d: nat)
    requires Chain(sent + queued) && 0 < d <= |queued|
    requires d < |queued| ==> queued[d].part == 0
    ensures Chain(sent + queued[d..])
  {
    var all, cut := sent + queued, sent + queued[d..];
    forall i | 0 < i < |cut|
      ensures Joins(cut[i - 1], cut[i])
    {
      if i < |sent| {
        assert Joins(all[i - 1], all[i]);
      } else if i == |sent| {
        ChainOrdered(all, i - 1, i + d);
        assert Joins(all[i + d - 1], all[i + d]);
        ChainOrdered(all, i - 1, i + d - 1);
      } else {
        assert Joins(all[i + d - 1], all[i + d]);
      }
    }
    if |sent| > 0 {
      assert all[0] == cut[0];
    }
  }

  lemma {:induction false} ExpireKeepsInv(s: System, now: u64)
    requires Inv(s)
    ensures Inv(Step(s, Expire(now)))
  {
    var t := Step(s, Expire(now));
    ExpiryStopsAtPacket(s, now);
    var d := |s.queued| - |t.tx.queue|;
    assert t.queued == s.queued[d..];
    if d > 0 {
      ChainCut(s.sent, s.queued, d);
      forall k, j | 0 <= k < |s.origins| && s.seen <= j < |t.sent + t.queued|
        ensures s.origins[k] < (t.sent + t.queued)[j].packet
      {
        var all := s.sent + s.queued;
        assert (t.sent + t.queued)[j] == if j < |s.sent| then all[j] else all[j + d];
      }
    }
  }

  /** A fragment which is not first is taken only right after its predecessor. */
  lemma {:induction false} TakenInPlace(s: System, i: nat)
    requires Inv(s) && Enabled(s, Receive(i)) && s.rx.Takes(Wire(s.start + i), s.net[i], s.size)
    ensures var t := s.sent[i];
      t.part > 0 ==> s.rx.build.Some? && s.awaited == i > 0 && s.sent[i - 1] == Tag(t.packet, t.part - 1)
  {
    var t := s.sent[i];
    SourceShape(s.packets, s.size, t);
    if t.part > 0 {
      SameWire(s.start + s.awaited, s.start + i);
      var all := s.sent + s.queued;
      assert all[i - 1] == s.sent[i - 1] && all[i] == t;
      assert Joins(all[i - 1], all[i]);
    }
  }

  /** So the packet under construction stays a front of one packet. */
  lemma {:induction false} TakenGrows(s: System, i: nat)
    requires Inv(s) && Enabled(s, Receive(i)) && s.rx.Takes(Wire(s.start + i), s.net[i], s.size)
    ensures s.rx.Grown(s.net[i]) == UpTo(s.packets, s.size, s.sent[i])
  {
    SourceShape(s.packets, s.size, s.sent[i]);
    TakenInPlace(s, i);
  }

  lemma {:induction false} AfterLastPart(s: System, i: nat, j: nat)
    requires Inv(s) && i < |s.sent| && s.net[i].last && i < j < |s.sent + s.queued|
    ensures s.sent[i].packet < (s.sent + s.queued)[j].packet
  {
    var all := s.sent + s.queued;
    assert all[i] == s.sent[i];
    ChainOrdered(all, i, j);
    SourceShape(s.packets, s.size, s.sent[i]);
    if j < |s.sent| {
      assert TagOk(s.packets, s.size, s.sent[j]);
    } else {
      assert TagOk(s.packets, s.size, s.queued[j - |s.sent|]);
    }
  }

  lemma {:induction false} TakenHolds(packets: seq<Packet>, size: nat, start: nat, sent: seq<Tag>, i: nat)
    requires size > 0 && i < |sent|
    requires TagOk(packets, size, sent[i]) && sent[i].part + 1 < Count(packets, size, sent[i].packet)
    ensures var rx := Rx(WrapAdd(Wire(start + i), 1), Some(UpTo(packets, size, sent[i])));
      RxHolds(packets, size, start, sent, rx, i + 1, i + 1)
  {
    WireNext(start + i);
  }

  lemma {:induction false} ReceiveKeepsRx(s: System, i: nat, id: u32, f: Fragment)
    requires Inv(s) && Enabled(s, Receive(i)) && id == Wire(s.start + i) && f == s.net[i]
    ensures RxHolds(s.packets, s.size, s.start, s.sent, s.rx.Receive(id, f, s.size),
                    if s.rx.Takes(id, f, s.size) then i + 1 else s.awaited, i + 1)
  {
    SourceShape(s.packets, s.size, s.sent[i]);
    if s.rx.Takes(id, f, s.size) {
      TakenGrows(s, i);
      if !f.last {
        TakenHolds(s.packets, s.size, s.start, s.sent, i);
      }
    }
  }

  lemma {:induction false} DeliverOne(packets: seq<Packet>, delivered: seq<Packet>, origins: seq<nat>, tags: seq<Tag>,
                                      seen: nat, i: nat)
    requires DeliveredHolds(packets, delivered, origins) && Fresh(origins, tags, seen)
    requires seen <= i < |tags| && tags[i].packet < |packets|
    requires forall j :: i < j < |tags| ==> tags[i].packet < tags[j].packet
    ensures DeliveredHolds(packets, delivered + [packets[tags[i].packet]], origins + [tags[i].packet])
    ensures Fresh(origins + [tags[i].packet], tags, i + 1)
  {
  }

  lemma {:induction false} ReceiveKeepsDelivered(s: System, i: nat)
    requires Inv(s) && Enabled(s, Receive(i))
    ensures var t := Step(s, Receive(i));
      DeliveredHolds(t.packets, t.delivered, t.origins) && Fresh(t.origins, t.sent + t.queued, t.seen)
  {
    var f := s.net[i];
    var all := s.sent + s.queued;
    if s.rx.Takes(Wire(s.start + i), f, s.size) && f.last {
      TakenGrows(s, i);
      SourceShape(s.packets, s.size, s.sent[i]);
      forall j | i < j < |all|
        ensures all[i].packet < all[j].packet
      {
        AfterLastPart(s, i, j);
      }
      DeliverOne(s.packets, s.delivered, s.origins, all, s.seen, i);
      assert s.rx.Completed(Wire(s.start + i), f, s.size) == [s.packets[all[i].packet]];
    } else {
      assert s.delivered + [] == s.delivered && s.origins + [] == s.origins;
    }
  }

  lemma {:induction false} StepKeepsInv(s: System, a: Action)
    requires Inv(s) && Enabled(s, a)
    ensures Inv(Step(s, a))
  {
    match a
    case Push(p, e) => PushKeepsInv(s, p, e);
    case Expire(now) => ExpireKeepsInv(s, now);
    case Send => SendKeepsInv(s);
    case Receive(i) =>
      ReceiveKeepsRx(s, i, Wire(s.start + i), s.net[i]);
      ReceiveKeepsDelivered(s, i);
    case Reset =>
  }

  lemma {:induction false} RunKeepsInv(start: nat, size: nat, actions: seq<Action>)
    requires size > 0
    ensures Inv(After(Init(start, size), actions))
    decreases |actions|
  {
    if actions != [] {
      RunKeepsInv(start, size, actions[..|actions| - 1]);
      var t := After(Init(start, size), actions[..|actions| - 1]);
      var a := actions[|actions| - 1];
      if Enabled(t, a) {
        StepKeepsInv(t, a);
      }
    }
  }

  // ---- what the channel promises ----

  ghost predicate IsSubsequence(xs: seq<Packet>, ys: seq<Packet>) {
    exists ids: seq<nat> :: DeliveredHolds(ys, xs, ids)
  }

  /** In every run, the packets returned are a subsequence of those pushed: each is one of them,
      whole, at most once, and in order. */
  lemma {:induction false} NeverSpliced(start: nat, size: nat, actions: seq<Action>)
    requires size > 0
    ensures var s := After(Init(start, size), actions); IsSubsequence(s.delivered, s.packets)
  {
    RunKeepsInv(start, size, actions);
    var s := After(Init(start, size), actions);
    assert DeliveredHolds(s.packets, s.delivered, s.origins);
  }

  /** The lap in the network's promise is exact: a later fragment is mistaken for the awaited one
      exactly when it is a whole number of laps late. */
  lemma {:induction false} LateFragmentTakenExactly(rx: Rx, start: nat, awaited: nat, i: nat, f: Fragment, size: nat)
    requires rx.build.Some? && rx.baseId == Wire(start + awaited) && awaited <= i
    requires !f.first && SizeIsValid(f, size)
    ensures rx.Takes(Wire(start + i), f, size) <==> (i - awaited) % LAP == 0
  {
    SameWire(start + awaited, start + i);
  }
}
