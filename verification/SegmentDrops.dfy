/** When the sender reports a drop, told by the segments themselves: which have been accounted for, and which
    one is missing. */
module SegmentDrops {
  import opened Words
  import opened Bits
  import opened Fragments
  import opened DropDetection
  import opened SegmentChannel
  import T = SegmentTx
  import R = SegmentRx

  // ---- the books ----

  /** Every segment before `restart` is done with: a drop was reported there, or the connection began. Of the
      others, `known` have been reported as taken in. */
  datatype Ledger = Ledger(restart: nat, known: set<nat>)

  predicate Accounted(l: Ledger, j: nat) {
    j < l.restart || j in l.known
  }

  /** The segments an acknowledgement reports. */
  function ReportedBy(ack: Ack): set<nat>
    requires |ack.heard| == 32
  {
    set i | 0 <= i < 32 && i < ack.base && ack.heard[i] :: ack.base - 1 - i
  }

  function Heard(l: Ledger, ack: Ack): Ledger
    requires |ack.heard| == 32
  {
    l.(known := l.known + ReportedBy(ack))
  }

  /** How many of the segments in [lo, hi) are accounted for. */
  function Later(l: Ledger, lo: nat, hi: nat): nat
    decreases hi - lo
  {
    if lo >= hi then 0 else Later(l, lo + 1, hi) + if Accounted(l, lo) then 1 else 0
  }

  /** A segment not accounted for which is the 32nd before the base or older, or has three after it in. */
  predicate Missing(l: Ledger, base: nat, j: nat) {
    j < base && !Accounted(l, j) && (base - j >= 32 || Later(l, j + 1, base) >= 3)
  }

  ghost predicate SomeMissing(l: Ledger, base: nat) {
    exists j :: Missing(l, base, j)
  }

  /** An acknowledgement is booked; after a drop all so far is done with. */
  ghost function Booked(l: Ledger, ack: Ack): Ledger
    requires |ack.heard| == 32
  {
    if SomeMissing(Heard(l, ack), ack.base) then Ledger(ack.base, {}) else Heard(l, ack)
  }

  ghost function BookedBy(s: System, l: Ledger, a: Action): Ledger
    requires Inv(s)
  {
    if a.DeliverAck? && Enabled(s, a) && s.tx.base <= a.ack.base then Booked(l, a.ack) else l
  }

  /** The books kept over a run. */
  ghost function Books(start: nat, txSize: u32, rxSize: u32, actions: seq<Action>): Ledger
    requires rxSize < MAX_AGE
    decreases |actions|
  {
    if actions == [] then Ledger(start, {})
    else
      var front := actions[..|actions| - 1];
      BookedBy(After(start, txSize, rxSize, front), Books(start, txSize, rxSize, front), actions[|actions| - 1])
  }

  // ---- the sender's record is the books' last 32 entries ----

  /** Bit i stands for the segment i + 1 places behind the base. */
  ghost predicate Recorded(acked: Word, base: nat, l: Ledger) {
    && |acked| == 32 && l.restart <= base
    && (forall i :: 0 <= i < 32 ==> acked[i] == (i >= base || Accounted(l, base - 1 - i)))
    && (forall j :: 0 <= j < base && !Accounted(l, j) ==> base - j < 32)
    && (forall j :: j in l.known ==> j < base)
  }

  lemma {:induction false} CountIsLater(w: Word, base: nat, l: Ledger, g: nat)
    requires |w| == 32 && g <= 32 && g <= base
    requires forall i :: 0 <= i < g ==> w[i] == Accounted(l, base - 1 - i)
    ensures CountBelow(w, g) == Later(l, base - g, base)
    decreases g
  {
    if g > 0 {
      CountIsLater(w, base, l, g - 1);
    }
  }

  lemma {:induction false} NotYetKnown(l: Ledger, from: nat, j: nat)
    requires l.restart <= from <= j && forall k :: k in l.known ==> k < from
    ensures !Accounted(l, j)
  {
  }

  lemma {:induction false} ReportedIs(ack: Ack, i: nat)
    requires |ack.heard| == 32 && i < ack.base
    ensures ack.base - 1 - i in ReportedBy(ack) <==> i < 32 && ack.heard[i]
  {
  }

  /** The bits that an acknowledgement leaves, before a drop is looked for. */
  lemma {:induction false} MergedIs(acked: Word, from: nat, ack: Ack, l: Ledger)
    requires Recorded(acked, from, l) && from <= ack.base && |ack.heard| == 32
    ensures var w := Merged(acked, ack.base - from, ack.heard, true);
      forall i :: 0 <= i < 32 ==> w[i] == (i >= ack.base || Accounted(Heard(l, ack), ack.base - 1 - i))
  {
    var w, d := Merged(acked, ack.base - from, ack.heard, true), ack.base - from;
    forall i | 0 <= i < 32
      ensures w[i] == (i >= ack.base || Accounted(Heard(l, ack), ack.base - 1 - i))
    {
      if i < ack.base {
        ReportedIs(ack, i);
        if i < d {
          NotYetKnown(l, from, ack.base - 1 - i);
        } else {
          assert acked[i - d] == Accounted(l, from - 1 - (i - d));
        }
      }
    }
  }

  lemma {:induction false} AgedIsMissing(acked: Word, from: nat, ack: Ack, l: Ledger, i: nat)
    requires Recorded(acked, from, l) && from <= ack.base && |ack.heard| == 32
    requires 32 <= i < 32 + ack.base - from && !Aged(acked, ack.base - from)[i]
    ensures i < ack.base && Missing(Heard(l, ack), ack.base, ack.base - 1 - i)
  {
    var d := ack.base - from;
    if i < d {
      NotYetKnown(l, from, ack.base - 1 - i);
    } else {
      assert !acked[i - d];
    }
    ReportedIs(ack, i);
  }

  lemma {:induction false} MissingIsAged(acked: Word, from: nat, ack: Ack, l: Ledger, j: nat)
    requires Recorded(acked, from, l) && from <= ack.base && |ack.heard| == 32
    requires Missing(Heard(l, ack), ack.base, j) && ack.base - 1 - j >= 32
    ensures AgesOut(acked, ack.base - from)
  {
    var d, g := ack.base - from, ack.base - 1 - j;
    if j < from {
      assert !Accounted(l, j);
      assert !acked[from - 1 - j] && g - d == from - 1 - j;
    }
    assert !Aged(acked, d)[g];
  }

  lemma {:induction false} GapIsMissing(w: Word, ack: Ack, h: Ledger, g: nat)
    requires |w| == 32 && g < 32 && DropAt(w, g)
    requires forall i :: 0 <= i < 32 ==> w[i] == (i >= ack.base || Accounted(h, ack.base - 1 - i))
    ensures g < ack.base && Missing(h, ack.base, ack.base - 1 - g)
  {
    hide Accounted;
    CountIsLater(w, ack.base, h, g);
  }

  lemma {:induction false} MissingIsGap(w: Word, ack: Ack, h: Ledger, j: nat)
    requires |w| == 32 && Missing(h, ack.base, j) && ack.base - 1 - j < 32
    requires forall i :: 0 <= i < 32 ==> w[i] == (i >= ack.base || Accounted(h, ack.base - 1 - i))
    ensures DropAt(w, ack.base - 1 - j)
  {
    hide Accounted;
    CountIsLater(w, ack.base, h, ack.base - 1 - j);
  }

  lemma {:induction false} BitsShowMissing(acked: Word, from: nat, ack: Ack, l: Ledger)
    requires Recorded(acked, from, l) && from <= ack.base && |ack.heard| == 32
    requires Drops(acked, ack.base - from, ack.heard, true)
    ensures SomeMissing(Heard(l, ack), ack.base)
  {
    hide Heard, Missing, DropAt, Aged, Merged, Accounted;
    var d := ack.base - from;
    if AgesOut(acked, d) {
      var i :| 32 <= i < 32 + d && !Aged(acked, d)[i];
      AgedIsMissing(acked, from, ack, l, i);
    } else {
      var w := Merged(acked, d, ack.heard, true);
      MergedIs(acked, from, ack, l);
      var g :| 0 <= g < |w| && DropAt(w, g);
      GapIsMissing(w, ack, Heard(l, ack), g);
    }
  }

  lemma {:induction false} MissingShowsInBits(acked: Word, from: nat, ack: Ack, l: Ledger, j: nat)
    requires Recorded(acked, from, l) && from <= ack.base && |ack.heard| == 32 && Missing(Heard(l, ack), ack.base, j)
    ensures Drops(acked, ack.base - from, ack.heard, true)
  {
    hide Heard, DropAt, Aged, Merged, Accounted, Later;
    if ack.base - 1 - j < 32 {
      var w := Merged(acked, ack.base - from, ack.heard, true);
      MergedIs(acked, from, ack, l);
      MissingIsGap(w, ack, Heard(l, ack), j);
      assert ShowsDrop(w);
    } else {
      MissingIsAged(acked, from, ack, l, j);
    }
  }

  /** What the bits show is what the books show. */
  lemma {:induction false} BitsShow(acked: Word, from: nat, ack: Ack, l: Ledger)
    requires Recorded(acked, from, l) && from <= ack.base && |ack.heard| == 32
    ensures Drops(acked, ack.base - from, ack.heard, true) <==> SomeMissing(Heard(l, ack), ack.base)
  {
    hide Drops, Missing;
    if Drops(acked, ack.base - from, ack.heard, true) {
      BitsShowMissing(acked, from, ack, l);
    }
    if j: nat :| Missing(Heard(l, ack), ack.base, j) {
      MissingShowsInBits(acked, from, ack, l, j);
    }
  }

  lemma {:induction false} BookedRecords(acked: Word, from: nat, ack: Ack, l: Ledger)
    requires Recorded(acked, from, l) && from <= ack.base && |ack.heard| == 32
    ensures Recorded(AckedAfter(acked, ack.base - from, ack.heard, true), ack.base, Booked(l, ack))
  {
    BitsShow(acked, from, ack, l);
    if !SomeMissing(Heard(l, ack), ack.base) {
      hide Drops, Merged;
      MergedIs(acked, from, ack, l);
      forall j | 0 <= j < ack.base && !Accounted(Heard(l, ack), j)
        ensures ack.base - j < 32
      {
        assert !Missing(Heard(l, ack), ack.base, j);
      }
    }
  }

  // ---- runs ----

  /** The books agree with the sender's record, and what is known was taken in. */
  ghost predicate Agree(s: System, l: Ledger) {
    && Inv(s) && Recorded(s.tx.acked, s.tx.base, l)
    && forall j :: j in l.known ==> j < |s.rx.log| && s.rx.log[j].Some?
  }

  /** What is reported was taken in. */
  lemma {:induction false} ReportedTaken(s: System, ack: Ack, j: nat)
    requires Inv(s) && Enabled(s, DeliverAck(ack)) && |ack.heard| == 32 && j in ReportedBy(ack)
    ensures j < |s.rx.log| && s.rx.log[j].Some?
  {
    var i :| 0 <= i < 32 && i < ack.base && ack.heard[i] && j == ack.base - 1 - i;
    assert R.Reported(s.rx.log[..ack.base], i);
  }

  /** What a trusted acknowledgement leaves of the sender's record. */
  lemma {:induction false} AckedIs(s: System, ack: Ack)
    requires Inv(s) && Enabled(s, DeliverAck(ack))
    ensures |ack.heard| == 32 && |s.tx.acked| == 32
    ensures var tx := Step(s, DeliverAck(ack)).tx;
      if s.tx.base <= ack.base then
        tx.base == ack.base && tx.acked == AckedAfter(s.tx.acked, ack.base - s.tx.base, ack.heard, true)
      else tx == s.tx
  {
    AckMeaning(s, ack);
    hide AckedAfter, T.Tx.Trusts, RxHolds;
  }

  lemma {:induction false} AckAgrees(s: System, l: Ledger, ack: Ack)
    requires Agree(s, l) && Enabled(s, DeliverAck(ack))
    ensures Agree(Step(s, DeliverAck(ack)), BookedBy(s, l, DeliverAck(ack)))
  {
    StepKeepsInv(s, DeliverAck(ack));
    AckedIs(s, ack);
    forall j | j in ReportedBy(ack)
      ensures j < |s.rx.log| && s.rx.log[j].Some?
    {
      ReportedTaken(s, ack, j);
    }
    hide Inv, AckedAfter, ReportedBy, SomeMissing;
    if s.tx.base <= ack.base {
      BookedRecords(s.tx.acked, s.tx.base, ack, l);
      hide Recorded;
    }
  }

  lemma {:induction false} ReceiverGrows(rx: R.Rx, id: u32, segment: R.Segment)
    requires rx.Valid()
    ensures rx.log <= rx.Receive(id, segment).log && rx.log <= rx.Sync(id).log
  {
    hide R.Rx.Receive, R.Rx.Sync;
    if rx.Takes(id) {
      R.ReceiveAccounts(rx, id, segment);
    } else {
      Ignored(rx, id, segment);
    }
    if rx.Syncs(id) {
      R.SyncAccounts(rx, id);
    } else {
      SyncIgnored(rx, id);
    }
  }

  lemma {:induction false} Ignored(rx: R.Rx, id: u32, segment: R.Segment)
    requires rx.Valid() && !rx.Takes(id)
    ensures rx.Receive(id, segment) == rx
  {
  }

  lemma {:induction false} SyncIgnored(rx: R.Rx, id: u32)
    requires rx.Valid() && !rx.Syncs(id)
    ensures rx.Sync(id) == rx
  {
  }

  lemma {:induction false} LogGrows(s: System, a: Action)
    requires Inv(s) && Enabled(s, a)
    ensures s.rx.log <= Step(s, a).rx.log
    ensures !a.DeliverAck? ==> Step(s, a).tx.acked == s.tx.acked && Step(s, a).tx.base == s.tx.base
  {
    hide AcksHold, SyncsHold, R.Rx.Receive, R.Rx.Sync, T.Tx.Acknowledge;
    match a
    case DeliverSegment(k) => ReceiverGrows(s.rx, Wire(k), s.sent[k - s.start]);
    case DeliverSync(k) => ReceiverGrows(s.rx, Wire(k), R.Segment(false, []));
    case _ =>
  }

  lemma {:induction false} StepAgrees(s: System, l: Ledger, a: Action)
    requires Agree(s, l) && Enabled(s, a)
    ensures Agree(Step(s, a), BookedBy(s, l, a))
  {
    if a.DeliverAck? {
      AckAgrees(s, l, a.ack);
    } else {
      StepKeepsInv(s, a);
      LogGrows(s, a);
      hide Inv, Step;
    }
  }

  lemma {:induction false} BooksAgree(start: nat, txSize: u32, rxSize: u32, actions: seq<Action>)
    requires rxSize < MAX_AGE
    ensures Agree(After(start, txSize, rxSize, actions), Books(start, txSize, rxSize, actions))
    decreases |actions|
  {
    if actions != [] {
      hide Agree, Step, Enabled;
      var front, a := actions[..|actions| - 1], actions[|actions| - 1];
      BooksAgree(start, txSize, rxSize, front);
      var s := After(start, txSize, rxSize, front);
      if Enabled(s, a) {
        StepAgrees(s, Books(start, txSize, rxSize, front), a);
      }
    }
  }

  lemma {:induction false} ReportsExactly(s: System, l: Ledger, ack: Ack)
    requires Agree(s, l) && Enabled(s, DeliverAck(ack))
    ensures |ack.heard| == 32
    ensures s.tx.ReportsDrop(Wire(ack.base), ack.heard, ack.checksum) <==>
      s.tx.base <= ack.base && SomeMissing(Heard(l, ack), ack.base)
  {
    ReportIs(s, ack);
    hide Inv, T.Tx.ReportsDrop, T.Tx.Trusts, Drops, SomeMissing, Heard, Recorded;
    if s.tx.base <= ack.base {
      BitsShow(s.tx.acked, s.tx.base, ack, l);
    }
  }

  lemma {:induction false} ReportIs(s: System, ack: Ack)
    requires Inv(s) && Enabled(s, DeliverAck(ack))
    ensures |ack.heard| == 32 && |s.tx.acked| == 32
    ensures s.tx.ReportsDrop(Wire(ack.base), ack.heard, ack.checksum) <==>
      s.tx.base <= ack.base && Drops(s.tx.acked, ack.base - s.tx.base, ack.heard, true)
  {
    AckMeaning(s, ack);
    hide T.Tx.Trusts, Drops, RxHolds;
  }

  /** In every run an acknowledgement reveals a drop exactly if it is not overtaken and the books, with it, show
      a segment missing. */
  lemma {:induction false} DropReportedExactly(start: nat, txSize: u32, rxSize: u32, actions: seq<Action>, ack: Ack)
    requires rxSize < MAX_AGE && Enabled(After(start, txSize, rxSize, actions), DeliverAck(ack))
    ensures var s, l := After(start, txSize, rxSize, actions), Books(start, txSize, rxSize, actions);
      && |ack.heard| == 32
      && (s.tx.ReportsDrop(Wire(ack.base), ack.heard, ack.checksum) <==>
          s.tx.base <= ack.base && SomeMissing(Heard(l, ack), ack.base))
  {
    hide Agree, Inv, T.Tx.ReportsDrop, SomeMissing, Heard, Enabled, Books;
    BooksAgree(start, txSize, rxSize, actions);
    ReportsExactly(After(start, txSize, rxSize, actions), Books(start, txSize, rxSize, actions), ack);
  }

  /** No segment the receiver has given up on stays unreported: once the base is 32 past it, a drop has been
      reported since it was sent. */
  lemma {:induction false} LossIsReported(start: nat, txSize: u32, rxSize: u32, actions: seq<Action>, j: nat)
    requires rxSize < MAX_AGE
    requires var s := After(start, txSize, rxSize, actions);
      start <= j < |s.rx.log| && s.rx.log[j] == None && j + 32 <= s.tx.base
    ensures j < Books(start, txSize, rxSize, actions).restart
  {
    BooksAgree(start, txSize, rxSize, actions);
    assert Accounted(Books(start, txSize, rxSize, actions), j);
  }

  /** A drop is reported for a segment sent since the last one. */
  lemma {:induction false} ReportedOnce(l: Ledger, ack: Ack)
    requires |ack.heard| == 32 && SomeMissing(Heard(l, ack), ack.base)
    ensures exists j :: l.restart <= j < ack.base && j !in l.known && j !in ReportedBy(ack)
  {
    var j: nat :| Missing(Heard(l, ack), ack.base, j);
    assert l.restart <= j < ack.base && j !in l.known && j !in ReportedBy(ack);
  }

  // ---- nothing lost ----

  /** Acknowledgements come often enough to report every segment once: each moves the base by five at most. */
  ghost predicate Frequent(start: nat, txSize: u32, rxSize: u32, actions: seq<Action>)
    requires rxSize < MAX_AGE
    decreases |actions|
  {
    actions == [] ||
    var front, a := actions[..|actions| - 1], actions[|actions| - 1];
    var s := After(start, txSize, rxSize, front);
    Frequent(start, txSize, rxSize, front) &&
    (a.DeliverAck? && Enabled(s, a) ==> a.ack.base <= s.tx.base + R.ACK_BITS)
  }

  ghost predicate NothingLost(s: System) {
    forall j :: s.start <= j < |s.rx.log| ==> s.rx.log[j].Some?
  }

  ghost predicate AllAccounted(s: System, l: Ledger) {
    l.restart == s.start && forall j :: 0 <= j < s.tx.base ==> Accounted(l, j)
  }

  lemma {:induction false} AckAccounts(s: System, l: Ledger, ack: Ack)
    requires Inv(s) && Enabled(s, DeliverAck(ack)) && AllAccounted(s, l) && NothingLost(s)
    requires s.tx.base <= ack.base <= s.tx.base + R.ACK_BITS
    ensures |ack.heard| == 32 && Booked(l, ack) == Heard(l, ack)
    ensures forall j :: 0 <= j < ack.base ==> Accounted(Heard(l, ack), j)
  {
    forall j | 0 <= j < ack.base
      ensures Accounted(Heard(l, ack), j)
    {
      if j >= s.tx.base {
        var i := ack.base - 1 - j;
        assert Reports(s.rx.log[..ack.base], ack);
        assert s.rx.log[..ack.base][j] == s.rx.log[j] && s.rx.log[j].Some?;
        assert R.Reported(s.rx.log[..ack.base], i) && ack.heard[i];
        ReportedIs(ack, i);
      } else {
        assert Accounted(l, j);
      }
    }
  }

  /** While the receiver takes everything in and acknowledges often enough, no drop is ever reported. */
  lemma {:induction false} NoLossNoDrop(start: nat, txSize: u32, rxSize: u32, actions: seq<Action>)
    requires rxSize < MAX_AGE && Frequent(start, txSize, rxSize, actions)
    requires NothingLost(After(start, txSize, rxSize, actions))
    ensures AllAccounted(After(start, txSize, rxSize, actions), Books(start, txSize, rxSize, actions))
    decreases |actions|
  {
    if actions != [] {
      var front, a := actions[..|actions| - 1], actions[|actions| - 1];
      var s, l := After(start, txSize, rxSize, front), Books(start, txSize, rxSize, front);
      if Enabled(s, a) {
        LogGrows(s, a);
        assert NothingLost(s);
        NoLossNoDrop(start, txSize, rxSize, front);
        if a.DeliverAck? {
          AckMeaning(s, a.ack);
          AckKeepsSent(s.tx, Wire(a.ack.base), a.ack.heard, a.ack.checksum, s.start, s.sent);
          if s.tx.base <= a.ack.base {
            AckAccounts(s, l, a.ack);
          }
        }
      } else {
        NoLossNoDrop(start, txSize, rxSize, front);
      }
    }
  }
}
