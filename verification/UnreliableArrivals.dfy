/** What comes out of the unreliable channel, exactly: a packet is returned when all its fragments arrive one
    after another. */
module UnreliableArrivals {
  import opened Words
  import opened Fragments
  import opened Unreliable
  import opened UnreliableChannel

  // ---- the receiver alone ----

  /** The receiver and the packets it has returned, once fragments have arrived under consecutive identifiers
      from that of index k on. */
  function TakeIn(rx: Rx, k: nat, fs: seq<Fragment>, size: nat): (Rx, seq<Packet>)
    decreases |fs|
  {
    if fs == [] then (rx, [])
    else
      var (before, done) := TakeIn(rx, k, fs[..|fs| - 1], size);
      var id, f := Wire(k + |fs| - 1), fs[|fs| - 1];
      (before.Receive(id, f, size), done + before.Completed(id, f, size))
  }

  lemma {:induction false} TakeInNext(rx: Rx, k: nat, fs: seq<Fragment>, f: Fragment, size: nat)
    ensures var (before, done) := TakeIn(rx, k, fs, size); var id := Wire(k + |fs|);
      TakeIn(rx, k, fs + [f], size) == (before.Receive(id, f, size), done + before.Completed(id, f, size))
  {
    assert (fs + [f])[..|fs|] == fs;
  }

  lemma {:induction false} Nothing(ps: seq<Packet>)
    ensures [] + ps == ps && ps + [] == ps
  {
  }

  lemma {:induction false} TakeInNothing(rx: Rx, k: nat, fs: seq<Fragment>, size: nat)
    ensures TakeIn(rx, k, fs[..0], size) == (rx, [])
  {
  }

  /** Midway through a packet the receiver has its first bytes and waits for the next. */
  lemma {:induction false} PacketSoFar(rx: Rx, k: nat, p: Packet, size: nat, n: nat)
    requires size > 0 && 0 < n < |Fragmentize(p, size)|
    ensures n * size <= |p|
    ensures TakeIn(rx, k, Fragmentize(p, size)[..n], size) == (Rx(Wire(k + n), Some(p[..n * size])), [])
    decreases n
  {
    hide TakeIn, Fragmentize;
    var fs, i := Fragmentize(p, size), n - 1;
    FragmentShape(p, size, i);
    WireNext(k + i);
    TakeInNext(rx, k, fs[..i], fs[i], size);
    assert fs[..n] == fs[..i] + [fs[i]];
    if i > 0 {
      PacketSoFar(rx, k, p, size, i);
      assert (i + 1) * size == n * size;
      JoinRanges(p, i * size, n * size);
      Nothing([]);
    } else {
      TakeInNothing(rx, k, fs, size);
      FirstBytes(p, size);
      Nothing([]);
      Nothing([p]);
    }
  }

  lemma {:induction false} FragmentShape(p: Packet, size: nat, i: nat)
    requires size > 0 && i < |Fragmentize(p, size)|
    ensures var f := Fragmentize(p, size)[i];
      && f.first == (i == 0) && f.last == (i == |Fragmentize(p, size)| - 1) && SizeIsValid(f, size)
      && i * size <= |p| && (f.last || (i + 1) * size < |p|)
      && f.data == if f.last then p[i * size..] else p[i * size..(i + 1) * size]
  {
    SplitShape(p, true, size, i);
  }

  /** Whatever it was doing: a packet whose fragments all arrive, in order and without a gap, is returned, and
      nothing else. */
  lemma {:induction false} WholePacketReturned(rx: Rx, k: nat, p: Packet, size: nat)
    requires size > 0
    ensures var n := |Fragmentize(p, size)|; TakeIn(rx, k, Fragmentize(p, size), size) == (Rx(Wire(k + n), None), [p])
  {
    hide TakeIn, Fragmentize;
    var fs := Fragmentize(p, size);
    var i := |fs| - 1;
    FragmentShape(p, size, i);
    WireNext(k + i);
    TakeInNext(rx, k, fs[..i], fs[i], size);
    assert fs == fs[..i] + [fs[i]];
    if i > 0 {
      PacketSoFar(rx, k, p, size, i);
      JoinRanges(p, i * size, |p|);
      Nothing([p]);
    } else {
      TakeInNothing(rx, k, fs, size);
      FirstBytes(p, size);
      Nothing([]);
      Nothing([p]);
    }
  }

  lemma {:induction false} TakeInConcat(rx: Rx, k: nat, a: seq<Fragment>, b: seq<Fragment>, size: nat)
    ensures var (mid, done) := TakeIn(rx, k, a, size); var (end, more) := TakeIn(mid, k + |a|, b, size);
      TakeIn(rx, k, a + b, size) == (end, done + more)
    decreases |b|
  {
    hide TakeIn, Rx.Receive, Rx.Completed;
    if b == [] {
      assert a + b == a;
      var (mid, done) := TakeIn(rx, k, a, size);
      TakeInNothing(mid, k + |a|, b, size);
      assert b[..0] == b;
      Nothing(done);
    } else {
      var front, f := b[..|b| - 1], b[|b| - 1];
      assert a + b == a + front + [f] && b == front + [f];
      TakeInConcat(rx, k, a, front, size);
      TakeInNext(rx, k, a + front, f, size);
      var (mid, done) := TakeIn(rx, k, a, size);
      TakeInNext(mid, k + |a|, front, f, size);
      var (end, more) := TakeIn(mid, k + |a|, front, size);
      var last := end.Completed(Wire(k + |a| + |front|), f, size);
      assert done + more + last == done + (more + last);
    }
  }

  /** So with all fragments of all packets. */
  lemma {:induction false} AllPacketsReturned(rx: Rx, k: nat, packets: seq<Packet>, size: nat)
    requires size > 0
    ensures TakeIn(rx, k, FragmentizeAll(packets, size), size).1 == packets
    decreases |packets|
  {
    hide TakeIn, Fragmentize;
    if packets == [] {
      TakeInNothing(rx, k, [], size);
    } else {
      var before, p := packets[..|packets| - 1], packets[|packets| - 1];
      var fs := FragmentizeAll(before, size);
      AllPacketsReturned(rx, k, before, size);
      TakeInConcat(rx, k, fs, Fragmentize(p, size), size);
      WholePacketReturned(TakeIn(rx, k, fs, size).0, k + |fs|, p, size);
      assert before + [p] == packets;
    }
  }

  // ---- runs ----

  /** What one action adds to the record: a fragment's arrival, by its position, or a reset. */
  ghost function Note(s: System, a: Action): seq<Option<nat>> {
    if !Enabled(s, a) then []
    else
      match a
      case Receive(i) => [Some(i)]
      case Reset => [None]
      case _ => []
  }

  ghost function Arrivals(s: System, actions: seq<Action>): seq<Option<nat>>
    requires s.size > 0
    decreases |actions|
  {
    if actions == [] then []
    else
      var front := actions[..|actions| - 1];
      Arrivals(s, front) + Note(After(s, front), actions[|actions| - 1])
  }

  predicate EndsWith(record: seq<Option<nat>>, i: nat) {
    record != [] && record[|record| - 1] == Some(i)
  }

  /** The record ends with all parts of a packet up to one, one after another. */
  ghost predicate OnTrack(record: seq<Option<nat>>, sent: seq<Tag>, i: nat)
    decreases |record|
  {
    && EndsWith(record, i) && i < |sent|
    && (sent[i].part == 0 || (i > 0 && OnTrack(record[..|record| - 1], sent, i - 1)))
  }

  /** The arrival of fragment i comes right after those of all parts of its packet before it. */
  ghost predicate Midway(s: System, record: seq<Option<nat>>, i: nat)
    requires s.size > 0
  {
    && OnTrack(record, s.sent, i) && TagOk(s.packets, s.size, s.sent[i])
    && s.sent[i].part + 1 < Count(s.packets, s.size, s.sent[i].packet)
  }

  ghost predicate Finishes(s: System, record: seq<Option<nat>>, i: nat, k: nat)
    requires s.size > 0
  {
    && OnTrack(record, s.sent, i) && s.sent[i].packet == k && TagOk(s.packets, s.size, s.sent[i])
    && s.sent[i].part + 1 == Count(s.packets, s.size, k)
  }

  ghost predicate Complete(s: System, record: seq<Option<nat>>, k: nat)
    requires s.size > 0
  {
    exists n, i :: 0 <= n <= |record| && Finishes(s, record[..n], i, k)
  }

  /** How a state and the record of the run that led to it belong together. */
  ghost predicate Recorded(s: System, record: seq<Option<nat>>) {
    && Inv(s)
    && (forall j :: 0 <= j < |record| && record[j].Some? ==> record[j].value < s.seen)
    && (forall i: nat :: EndsWith(record, i) ==> i + 1 == s.seen)
    && (s.rx.build.Some? && s.awaited == s.seen <==> exists i :: Midway(s, record, i))
    && (forall k :: k in s.origins <==> Complete(s, record, k))
  }

  /** A fragment which is not first is taken exactly when what is before it was taken last. */
  lemma {:induction false} TakenExactly(s: System, i: nat)
    requires Inv(s) && Enabled(s, Receive(i))
    ensures s.rx.Takes(Wire(s.start + i), s.net[i], s.size) <==>
      s.sent[i].part == 0 || (s.rx.build.Some? && s.awaited == s.seen == i)
  {
    SourceShape(s.packets, s.size, s.sent[i]);
    if s.rx.build.Some? {
      SameWire(s.start + s.awaited, s.start + i);
    }
  }

  lemma {:induction false} TrackNext(sent: seq<Tag>, record: seq<Option<nat>>, i: nat)
    requires i < |sent|
    ensures OnTrack(record + [Some(i)], sent, i) <==>
      sent[i].part == 0 || (i > 0 && OnTrack(record, sent, i - 1))
  {
    assert (record + [Some(i)])[..|record|] == record;
  }

  lemma {:induction false} TrackSame(record: seq<Option<nat>>, sent: seq<Tag>, sent': seq<Tag>, i: nat)
    requires sent <= sent' && i < |sent|
    ensures OnTrack(record, sent, i) <==> OnTrack(record, sent', i)
    decreases |record|
  {
    if record != [] && i > 0 {
      TrackSame(record[..|record| - 1], sent, sent', i - 1);
    }
  }

  /** The part before in the same packet, if it was the last to arrive. */
  lemma {:induction false} PartBefore(s: System, i: nat)
    requires Inv(s) && 0 < i < |s.sent| && s.sent[i].part > 0
    ensures s.sent[i] == Tag(s.sent[i - 1].packet, s.sent[i - 1].part + 1)
    ensures TagOk(s.packets, s.size, s.sent[i - 1])
    ensures s.sent[i - 1].part + 1 < Count(s.packets, s.size, s.sent[i - 1].packet)
  {
    var all := s.sent + s.queued;
    assert all[i] == s.sent[i] && all[i - 1] == s.sent[i - 1] && Joins(all[i - 1], all[i]);
    assert TagOk(s.packets, s.size, s.sent[i]) && TagOk(s.packets, s.size, s.sent[i - 1]);
  }

  /** So a fragment is taken exactly if the record with it is on track. */
  lemma {:induction false} TakenOnTrack(s: System, record: seq<Option<nat>>, i: nat)
    requires Recorded(s, record) && Enabled(s, Receive(i))
    ensures s.rx.Takes(Wire(s.start + i), s.net[i], s.size) <==> OnTrack(record + [Some(i)], s.sent, i)
  {
    hide Inv;
    SizesAgree(s);
    TakenExactly(s, i);
    TrackNext(s.sent, record, i);
    if s.sent[i].part > 0 && i > 0 {
      PartBefore(s, i);
      if OnTrack(record, s.sent, i - 1) {
        assert Midway(s, record, i - 1);
        assert EndsWith(record, i - 1);
      }
      if s.rx.build.Some? && s.awaited == s.seen == i {
        var m :| Midway(s, record, m);
        assert EndsWith(record, m);
      }
    }
  }

  lemma {:induction false} SizesAgree(s: System)
    requires Inv(s)
    ensures s.size > 0 && |s.net| == |s.sent| && s.seen <= |s.sent|
    ensures forall i :: 0 <= i < |s.sent| ==> TagOk(s.packets, s.size, s.sent[i])
  {
  }

  // ---- each action keeps it ----

  lemma {:induction false} FinishesStill(s: System, t: System, record: seq<Option<nat>>, i: nat, k: nat)
    requires Inv(s) && Inv(t) && s.size == t.size && s.packets <= t.packets && s.sent <= t.sent && i < |s.sent|
    ensures Finishes(t, record, i, k) <==> Finishes(s, record, i, k)
    ensures Midway(t, record, i) <==> Midway(s, record, i)
  {
    TrackSame(record, s.sent, t.sent, i);
    SizesAgree(s);
  }

  lemma {:induction false} LastOfFront(record: seq<Option<nat>>, n: nat, i: nat, seen: nat)
    requires n <= |record| && EndsWith(record[..n], i)
    requires forall j :: 0 <= j < |record| && record[j].Some? ==> record[j].value < seen
    ensures i < seen
  {
    assert record[n - 1] == Some(i);
  }

  /** Pushing, expiry and sending add nothing to the record, and change nothing about it. */
  lemma {:induction false} StillRecorded(s: System, t: System, record: seq<Option<nat>>)
    requires Recorded(s, record) && Inv(t) && s.size == t.size && s.packets <= t.packets && s.sent <= t.sent
    requires t.rx == s.rx && t.awaited == s.awaited && t.seen == s.seen && t.origins == s.origins
    ensures Recorded(t, record)
  {
    hide Inv, OnTrack, TagOk;
    SizesAgree(s);
    forall n, i: nat, k | 0 <= n <= |record|
      ensures Finishes(t, record[..n], i, k) <==> Finishes(s, record[..n], i, k)
    {
      SameFinish(s, t, record, n, i, k);
    }
    forall i: nat
      ensures Midway(t, record, i) <==> Midway(s, record, i)
    {
      SameMidway(s, t, record, i);
    }
  }

  lemma {:induction false} SameFinish(s: System, t: System, record: seq<Option<nat>>, n: nat, i: nat, k: nat)
    requires Recorded(s, record) && Inv(t) && s.size == t.size && s.packets <= t.packets && s.sent <= t.sent
    requires n <= |record|
    ensures Finishes(t, record[..n], i, k) <==> Finishes(s, record[..n], i, k)
  {
    hide Inv;
    SizesAgree(s);
    SizesAgree(t);
    if i < |s.sent| {
      FinishesStill(s, t, record[..n], i, k);
    } else if Finishes(t, record[..n], i, k) {
      LastOfFront(record, n, i, s.seen);
    }
  }

  lemma {:induction false} SameMidway(s: System, t: System, record: seq<Option<nat>>, i: nat)
    requires Recorded(s, record) && Inv(t) && s.size == t.size && s.packets <= t.packets && s.sent <= t.sent
    ensures Midway(t, record, i) <==> Midway(s, record, i)
  {
    hide Inv;
    SizesAgree(s);
    SizesAgree(t);
    if i < |s.sent| {
      FinishesStill(s, t, record, i, 0);
    }
  }

  lemma {:induction false} ResetRecorded(s: System, record: seq<Option<nat>>)
    requires Recorded(s, record)
    ensures Recorded(Step(s, Reset), record + [None])
  {
    StepKeepsInv(s, Reset);
    var t, more := Step(s, Reset), record + [None];
    forall k
      ensures Complete(t, more, k) <==> Complete(s, record, k)
    {
      CompleteMore(s, record, None, k);
      SameComplete(s, t, more, k);
    }
    forall i: nat
      ensures !Midway(t, more, i)
    {
    }
  }

  lemma {:induction false} SameComplete(s: System, t: System, record: seq<Option<nat>>, k: nat)
    requires s.size == t.size > 0 && s.packets == t.packets && s.sent == t.sent
    ensures Complete(t, record, k) <==> Complete(s, record, k)
  {
    forall n, i: nat | 0 <= n <= |record|
      ensures Finishes(t, record[..n], i, k) <==> Finishes(s, record[..n], i, k)
    {
    }
  }

  lemma {:induction false} CompleteMore(s: System, record: seq<Option<nat>>, x: Option<nat>, k: nat)
    requires s.size > 0
    ensures Complete(s, record + [x], k) <==> Complete(s, record, k) || exists i :: Finishes(s, record + [x], i, k)
  {
    hide OnTrack, TagOk, Finishes;
    var more := record + [x];
    forall n | 0 <= n <= |record|
      ensures more[..n] == record[..n]
    {
    }
    assert more[..|more|] == more;
    if Complete(s, record, k) {
      var n, i :| 0 <= n <= |record| && Finishes(s, record[..n], i, k);
      assert Finishes(s, more[..n], i, k);
    }
    if i :| Finishes(s, more, i, k) {
      assert Finishes(s, more[..|more|], i, k);
    }
    if Complete(s, more, k) {
      var n, i :| 0 <= n <= |more| && Finishes(s, more[..n], i, k);
      if n <= |record| {
        assert Finishes(s, record[..n], i, k);
      } else {
        assert more[..n] == more;
      }
    }
  }

  /** Which packet the arrival of fragment i completes, if any. */
  lemma {:induction false} OriginsAfter(s: System, record: seq<Option<nat>>, i: nat)
    requires Recorded(s, record) && Enabled(s, Receive(i))
    ensures var taken := OnTrack(record + [Some(i)], s.sent, i);
      Step(s, Receive(i)).origins ==
        s.origins + if taken && s.sent[i].part + 1 == Count(s.packets, s.size, s.sent[i].packet) then [s.sent[i].packet]
                    else []
  {
    SizesAgree(s);
    SourceShape(s.packets, s.size, s.sent[i]);
    NetIs(s, i);
    TakenOnTrack(s, record, i);
    hide Inv, OnTrack;
  }

  lemma {:induction false} FinishesNow(s: System, record: seq<Option<nat>>, i: nat, k: nat)
    requires s.size > 0 && i < |s.sent| && TagOk(s.packets, s.size, s.sent[i])
    ensures (exists m :: Finishes(s, record + [Some(i)], m, k)) <==>
      && OnTrack(record + [Some(i)], s.sent, i) && s.sent[i].packet == k
      && s.sent[i].part + 1 == Count(s.packets, s.size, s.sent[i].packet)
  {
    var more := record + [Some(i)];
    if m :| Finishes(s, more, m, k) {
      assert EndsWith(more, m);
    }
    if OnTrack(more, s.sent, i) && s.sent[i].packet == k && s.sent[i].part + 1 == Count(s.packets, s.size, k) {
      assert Finishes(s, more, i, k);
    }
  }

  lemma {:induction false} MidwayNow(s: System, record: seq<Option<nat>>, i: nat)
    requires Recorded(s, record) && Enabled(s, Receive(i))
    ensures var t, more := Step(s, Receive(i)), record + [Some(i)];
      t.rx.build.Some? && t.awaited == t.seen <==> exists m :: Midway(t, more, m)
  {
    SizesAgree(s);
    AwaitsInTime(s);
    SourceShape(s.packets, s.size, s.sent[i]);
    NetIs(s, i);
    TakenOnTrack(s, record, i);
    hide Inv, OnTrack;
    var t, more := Step(s, Receive(i)), record + [Some(i)];
    if m :| Midway(t, more, m) {
      TrackIsLast(more, s.sent, m);
    }
    if t.rx.build.Some? && t.awaited == t.seen {
      assert Midway(t, more, i);
    }
  }

  lemma {:induction false} ReceiveRecorded(s: System, record: seq<Option<nat>>, i: nat)
    requires Recorded(s, record) && Enabled(s, Receive(i))
    ensures Recorded(Step(s, Receive(i)), record + [Some(i)])
  {
    StepKeepsInv(s, Receive(i));
    SizesAgree(s);
    MidwayNow(s, record, i);
    OriginsAfter(s, record, i);
    hide Inv, OnTrack, Midway, Finishes, Rx.Receive, Rx.Completed, Rx.Takes;
    var t, more := Step(s, Receive(i)), record + [Some(i)];
    forall k
      ensures Complete(t, more, k) <==> k in t.origins
    {
      CompleteMore(s, record, Some(i), k);
      SameComplete(s, t, more, k);
      FinishesNow(s, record, i, k);
    }
    hide Complete;
  }

  lemma {:induction false} TrackIsLast(record: seq<Option<nat>>, sent: seq<Tag>, m: nat)
    requires OnTrack(record, sent, m)
    ensures EndsWith(record, m) && m < |sent|
  {
  }

  lemma {:induction false} NetIs(s: System, i: nat)
    requires Inv(s) && i < |s.sent|
    ensures i < |s.net| && s.net[i] == Source(s.packets, s.size, s.sent[i])
  {
  }

  lemma {:induction false} AwaitsInTime(s: System)
    requires Inv(s)
    ensures s.rx.build.Some? ==> s.awaited <= s.seen
  {
  }

  lemma {:induction false} StepRecorded(s: System, record: seq<Option<nat>>, a: Action)
    requires Recorded(s, record) && Enabled(s, a)
    ensures Recorded(Step(s, a), record + Note(s, a))
  {
    match a
    case Receive(i) => ReceiveRecorded(s, record, i);
    case Reset => ResetRecorded(s, record);
    case _ =>
      StepKeepsInv(s, a);
      SizesAgree(s);
      StillRecorded(s, Step(s, a), record);
      assert record + [] == record;
  }

  lemma {:induction false} RunRecorded(start: nat, size: nat, actions: seq<Action>)
    requires size > 0
    ensures var s := Init(start, size); Recorded(After(s, actions), Arrivals(s, actions))
    decreases |actions|
  {
    var s := Init(start, size);
    if actions == [] {
      RunKeepsInv(start, size, []);
    } else {
      hide Recorded;
      var front, a := actions[..|actions| - 1], actions[|actions| - 1];
      RunRecorded(start, size, front);
      if Enabled(After(s, front), a) {
        StepRecorded(After(s, front), Arrivals(s, front), a);
      } else {
        assert Arrivals(s, front) + [] == Arrivals(s, front);
      }
    }
  }

  // ---- exactly what is returned ----

  /** All n parts of packet k arrived, one right after another. */
  ghost predicate ArrivedWhole(record: seq<Option<nat>>, sent: seq<Tag>, k: nat, n: nat) {
    exists r: nat, i: nat :: PartsAt(record, sent, k, n, r, i)
  }

  ghost predicate PartsAt(record: seq<Option<nat>>, sent: seq<Tag>, k: nat, n: nat, r: nat, i: nat) {
    && r + n <= |record| && i + n <= |sent|
    && (forall m :: r <= m < r + n ==> record[m] == Some(i + m - r))
    && (forall m :: i <= m < i + n ==> sent[m] == Tag(k, m - i))
  }

  /** A row of parts is one part less, and the last one. */
  lemma {:induction false} PartsNext(record: seq<Option<nat>>, sent: seq<Tag>, k: nat, n: nat, r: nat, i: nat)
    requires r + n + 1 == |record| && i + n < |sent|
    ensures PartsAt(record, sent, k, n + 1, r, i) <==>
      PartsAt(record[..|record| - 1], sent, k, n, r, i) && EndsWith(record, i + n) && sent[i + n] == Tag(k, n)
  {
    var front := record[..|record| - 1];
    if PartsAt(front, sent, k, n, r, i) && EndsWith(record, i + n) && sent[i + n] == Tag(k, n) {
      forall m | r <= m < r + n + 1
        ensures record[m] == Some(i + m - r)
      {
        if m < r + n {
          assert front[m] == record[m];
        }
      }
    }
  }

  lemma {:induction false} TrackUnrolls(s: System, record: seq<Option<nat>>, i: nat)
    requires Inv(s) && i < |s.sent|
    ensures OnTrack(record, s.sent, i) <==>
      s.sent[i].part <= i && s.sent[i].part < |record| &&
      PartsAt(record, s.sent, s.sent[i].packet, s.sent[i].part + 1, |record| - 1 - s.sent[i].part, i - s.sent[i].part)
    decreases |record|
  {
    hide Inv, PartsAt;
    var t := s.sent[i];
    if record != [] && t.part <= i && t.part < |record| {
      PartsNext(record, s.sent, t.packet, t.part, |record| - 1 - t.part, i - t.part);
      if t.part == 0 {
        NoParts(record[..|record| - 1], s.sent, t.packet, i);
      }
    }
    if record != [] && t.part > 0 && i > 0 {
      PartBefore(s, i);
      TrackUnrolls(s, record[..|record| - 1], i - 1);
    }
  }

  lemma {:induction false} NoParts(record: seq<Option<nat>>, sent: seq<Tag>, k: nat, i: nat)
    requires i <= |sent|
    ensures PartsAt(record, sent, k, 0, |record|, i)
  {
  }

  lemma {:induction false} FinishedIsWhole(s: System, record: seq<Option<nat>>, k: nat, m: nat, i: nat)
    requires Inv(s) && k < |s.packets| && m <= |record| && Finishes(s, record[..m], i, k)
    ensures ArrivedWhole(record, s.sent, k, Count(s.packets, s.size, k))
  {
    hide Inv, Fragmentize;
    SizesAgree(s);
    var n := Count(s.packets, s.size, k);
    TrackIsLast(record[..m], s.sent, i);
    TrackUnrolls(s, record[..m], i);
    assert PartsAt(record, s.sent, k, n, m - n, i + 1 - n);
  }

  lemma {:induction false} WholeIsFinished(s: System, record: seq<Option<nat>>, k: nat, r: nat, i: nat)
    requires Inv(s) && k < |s.packets| && PartsAt(record, s.sent, k, Count(s.packets, s.size, k), r, i)
    ensures Complete(s, record, k)
  {
    hide Inv, Fragmentize;
    SizesAgree(s);
    var n := Count(s.packets, s.size, k);
    var last, front := i + n - 1, record[..r + n];
    assert s.sent[last] == Tag(k, n - 1);
    assert PartsAt(front, s.sent, k, n, r, i);
    TrackUnrolls(s, front, last);
    assert Finishes(s, front, last, k);
  }

  lemma {:induction false} CompleteIsWhole(s: System, record: seq<Option<nat>>, k: nat)
    requires Inv(s) && k < |s.packets|
    ensures Complete(s, record, k) <==> ArrivedWhole(record, s.sent, k, Count(s.packets, s.size, k))
  {
    SizesAgree(s);
    hide Inv, Fragmentize, Finishes, PartsAt;
    if Complete(s, record, k) {
      var m, i: nat :| 0 <= m <= |record| && Finishes(s, record[..m], i, k);
      FinishedIsWhole(s, record, k, m, i);
    }
    if ArrivedWhole(record, s.sent, k, Count(s.packets, s.size, k)) {
      var r: nat, i: nat :| PartsAt(record, s.sent, k, Count(s.packets, s.size, k), r, i);
      WholeIsFinished(s, record, k, r, i);
    }
  }

  /** In every run the packets returned are exactly those whose fragments all arrived one right after another,
      with no reset between, each whole and in the order they were pushed. */
  lemma {:induction false} ReturnedExactly(start: nat, size: nat, actions: seq<Action>)
    requires size > 0
    ensures var s, record := After(Init(start, size), actions), Arrivals(Init(start, size), actions);
      && DeliveredHolds(s.packets, s.delivered, s.origins) && NetHolds(s.packets, size, s.net, s.sent)
      && forall k :: 0 <= k < |s.packets| ==>
           (k in s.origins <==> ArrivedWhole(record, s.sent, k, Count(s.packets, size, k)))
  {
    RunRecorded(start, size, actions);
    var s, record := After(Init(start, size), actions), Arrivals(Init(start, size), actions);
    forall k | 0 <= k < |s.packets|
      ensures k in s.origins <==> ArrivedWhole(record, s.sent, k, Count(s.packets, size, k))
    {
      CompleteIsWhole(s, record, k);
    }
  }

  // ---- nothing lost ----

  /** Everything sent so far has arrived, in order, and nothing was reset. */
  ghost predicate InOrder(record: seq<Option<nat>>) {
    forall i :: 0 <= i < |record| ==> record[i] == Some(i)
  }

  function Fronts(queue: seq<Entry>): (fs: seq<Fragment>)
    ensures |fs| == |queue|
  {
    seq(|queue|, i requires 0 <= i < |queue| => queue[i].fragment)
  }

  /** Of what was pushed, no more than all is sent or queued; and if nothing has expired it is just that. */
  ghost predicate Kept(s: System)
    requires s.size > 0
  {
    var all := FragmentizeAll(s.packets, s.size);
    && |s.net| + |s.tx.queue| <= |all|
    && (|s.net| + |s.tx.queue| == |all| ==> s.net + Fronts(s.tx.queue) == all)
  }

  ghost predicate Followed(s: System, record: seq<Option<nat>>) {
    && s.size > 0 && Kept(s) && s.seen <= |s.net|
    && (InOrder(record) ==>
        && s.seen == |record|
        && (s.rx, s.delivered) == TakeIn(Rx(Wire(s.start), None), s.start, s.net[..s.seen], s.size))
  }

  lemma {:induction false} PushKept(s: System, p: Packet, e: u64)
    requires s.size > 0 && Kept(s)
    ensures Kept(Step(s, Push(p, e)))
  {
    hide Fragmentize;
    var t := Step(s, Push(p, e));
    assert t.packets[..|s.packets|] == s.packets;
    assert Fronts(t.tx.queue) == Fronts(s.tx.queue) + Fragmentize(p, s.size);
  }

  lemma {:induction false} UnexpiredOrFewer(queue: seq<Entry>, now: u64)
    ensures |Unexpired(queue, now)| < |queue| || Unexpired(queue, now) == queue
  {
    UnexpiredIsSuffix(queue, now);
    assert queue[0..] == queue;
  }

  lemma {:induction false} ExpireKept(s: System, now: u64)
    requires s.size > 0 && Kept(s)
    ensures Kept(Step(s, Expire(now)))
  {
    hide FragmentizeAll, Unexpired, Fronts;
    UnexpiredOrFewer(s.tx.queue, now);
  }

  lemma {:induction false} SendKept(s: System)
    requires s.size > 0 && Kept(s) && s.tx.queue != []
    ensures Kept(Step(s, Send))
  {
    hide FragmentizeAll;
    var t := Step(s, Send);
    assert t.net + Fronts(t.tx.queue) == s.net + Fronts(s.tx.queue);
  }

  lemma {:induction false} StepKept(s: System, a: Action)
    requires s.size > 0 && Kept(s) && Enabled(s, a)
    ensures Kept(Step(s, a))
  {
    match a
    case Push(p, e) => PushKept(s, p, e);
    case Expire(now) => ExpireKept(s, now);
    case Send => SendKept(s);
    case Receive(_) => hide FragmentizeAll, Rx.Receive;
    case Reset => hide FragmentizeAll;
  }

  lemma {:induction false} InOrderFront(record: seq<Option<nat>>, x: Option<nat>)
    ensures InOrder(record + [x]) <==> InOrder(record) && x == Some(|record|)
  {
    if InOrder(record + [x]) {
      assert (record + [x])[|record|] == Some(|record|);
      forall i | 0 <= i < |record|
        ensures record[i] == Some(i)
      {
        assert (record + [x])[i] == Some(i);
      }
    }
  }

  lemma {:induction false} StepFollowed(s: System, record: seq<Option<nat>>, a: Action)
    requires Followed(s, record) && Enabled(s, a)
    ensures Followed(Step(s, a), record + Note(s, a))
  {
    StepKept(s, a);
    hide Kept, TakeIn, FragmentizeAll, Fragmentize;
    match a
    case Receive(i) =>
      InOrderFront(record, Some(i));
      if InOrder(record + [Some(i)]) {
        TakeInNext(Rx(Wire(s.start), None), s.start, s.net[..i], s.net[i], s.size);
        assert s.net[..i + 1] == s.net[..i] + [s.net[i]];
      }
    case Reset => InOrderFront(record, None);
    case Send =>
      assert record + [] == record;
      assert (s.net + [s.tx.queue[0].fragment])[..s.seen] == s.net[..s.seen];
    case _ => assert record + [] == record;
  }

  lemma {:induction false} RunFollowed(start: nat, size: nat, actions: seq<Action>)
    requires size > 0
    ensures var s := Init(start, size); Followed(After(s, actions), Arrivals(s, actions))
    decreases |actions|
  {
    var s := Init(start, size);
    if actions == [] {
      TakeInNothing(s.rx, start, [], size);
    } else {
      hide Followed;
      var front, a := actions[..|actions| - 1], actions[|actions| - 1];
      RunFollowed(start, size, front);
      if Enabled(After(s, front), a) {
        StepFollowed(After(s, front), Arrivals(s, front), a);
      } else {
        assert Arrivals(s, front) + [] == Arrivals(s, front);
      }
    }
  }

  /** In every run in which nothing expires, nothing is lost and nothing is reset: everything pushed is
      returned once it is sent. */
  lemma {:induction false} NothingLostNothingMissing(start: nat, size: nat, actions: seq<Action>)
    requires size > 0
    requires var s := After(Init(start, size), actions);
      InOrder(Arrivals(Init(start, size), actions)) && s.seen == |s.net| == |FragmentizeAll(s.packets, size)|
    ensures var s := After(Init(start, size), actions); s.delivered == s.packets
  {
    hide TakeIn;
    RunFollowed(start, size, actions);
    var s := After(Init(start, size), actions);
    assert Fronts([]) == [];
    assert s.net[..s.seen] == s.net == FragmentizeAll(s.packets, size);
    AllPacketsReturned(Rx(Wire(s.start), None), s.start, s.packets, size);
  }
}
