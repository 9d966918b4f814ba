/** What becomes of the segments and syncs that arrive: none within the window is turned away, none is given up
    on before three later ones are in, and a sync is heeded exactly when it is past all that waits. */
module SegmentArrivals {
  import opened Words
  import opened Bits
  import opened Fragments
  import opened SegmentChannel
  import R = SegmentRx

  /** Segment k is taken in: handed over at its index, or waiting. */
  ghost predicate TakenIn(rx: R.Rx, k: nat, segment: R.Segment) {
    R.Logged(rx.log, R.Numbered(k, segment)) || R.Numbered(k, segment) in rx.pending
  }

  ghost predicate Waits(rx: R.Rx, k: nat) {
    exists p :: p in rx.pending && p.index == k
  }

  lemma {:induction false} HasIsWaiting(line: seq<R.Numbered>, k: nat)
    ensures R.Has(line, k) <==> exists p :: p in line && p.index == k
    decreases |line|
  {
    if line != [] {
      HasIsWaiting(line[1..], k);
      assert line == [line[0]] + line[1..];
    }
  }

  lemma {:induction false} SortedMembers(line: seq<R.Numbered>, lo: nat, hi: nat)
    requires R.Sorted(line, lo, hi)
    ensures forall i :: 0 <= i < |line| ==> lo + i <= line[i].index < hi && line[0].index <= line[i].index
    decreases |line|
  {
    if line != [] {
      SortedMembers(line[1..], line[0].index + 1, hi);
      forall i | 0 < i < |line|
        ensures lo + i <= line[i].index < hi && line[0].index <= line[i].index
      {
        assert line[i] == line[1..][i - 1];
      }
    }
  }

  lemma {:induction false} ReceivedIsTaken(rx: R.Rx, k: nat, segment: R.Segment)
    requires rx.Valid() && Unwrap(|rx.log|, Wire(k)) == k < |rx.log| + rx.size
    requires forall p :: p in rx.pending && p.index == k ==> p.segment == segment
    ensures var t := rx.Receive(Wire(k), segment);
      t.Valid() && TakenIn(t, k, segment) && rx.log <= t.log
  {
    var p := R.Numbered(k, segment);
    HasIsWaiting(rx.pending, k);
    if rx.Takes(Wire(k)) {
      R.ReceiveAccounts(rx, Wire(k), segment);
      assert p in R.Insert(rx.pending, p);
    } else {
      var q :| q in rx.pending && q.index == k;
      assert q == p;
    }
  }

  lemma {:induction false} BehindIsLogged(rx: R.Rx, t: R.Rx, segment: R.Segment)
    requires rx.Valid() && t.Valid() && TakenIn(t, |rx.log|, segment) && rx.log <= t.log
    ensures |t.log| > |rx.log| && t.log[|rx.log|] == Some(segment)
  {
    SortedMembers(t.pending, |t.log| + 1, |t.log| + t.size);
  }

  /** In every state a run can reach, a segment within the window is taken in when it arrives; and the one awaited
      is handed over at once. */
  lemma {:induction false} SegmentTakenIn(s: System, k: nat)
    requires Inv(s) && Enabled(s, DeliverSegment(k)) && |s.rx.log| <= k < |s.rx.log| + s.rx.size
    ensures var t := Step(s, DeliverSegment(k));
      && TakenIn(t.rx, k, s.sent[k - s.start])
      && (k == |s.rx.log| ==> |t.rx.log| > k && t.rx.log[k] == Some(s.sent[k - s.start]))
  {
    UnwrapAhead(|s.rx.log|, k);
    ReceivedIsTaken(s.rx, k, s.sent[k - s.start]);
    if k == |s.rx.log| {
      hide Inv, TakenIn;
      BehindIsLogged(s.rx, Step(s, DeliverSegment(k)).rx, s.sent[k - s.start]);
    }
  }

  // ---- giving up ----

  /** Three segments later than j are in, counting the one that arrives. */
  ghost predicate ThreePast(line: seq<R.Numbered>, j: nat) {
    |line| == 3 && forall p :: p in line ==> p.index > j
  }

  lemma {:induction false} FewGiveUpNothing(rx: R.Rx, line: seq<R.Numbered>)
    requires R.Sorted(line, |rx.log|, |rx.log| + rx.size) && |line| <= 2
    ensures rx.log <= rx.Settle(line).log
    ensures forall j :: |rx.log| <= j < |rx.Settle(line).log| ==> rx.Settle(line).log[j].Some?
    decreases |line|
  {
    if line != [] && line[0].index == |rx.log| {
      R.SettleNext(rx, line);
      FewGiveUpNothing(rx.Deliver(line[0]), line[1..]);
    }
  }

  lemma {:induction false} SettleGivesUp(rx: R.Rx, line: seq<R.Numbered>, j: nat)
    requires R.Sorted(line, |rx.log|, |rx.log| + rx.size) && |line| <= 3
    requires |rx.log| <= j < |rx.Settle(line).log| && rx.Settle(line).log[j] == None
    ensures ThreePast(line, j)
  {
    SortedMembers(line, |rx.log|, |rx.log| + rx.size);
    if |line| <= 2 {
      FewGiveUpNothing(rx, line);
    } else {
      R.SettleNext(rx, line);
      FewGiveUpNothing(rx.Deliver(line[0]), line[1..]);
      var after := rx.Deliver(line[0]);
      assert after.log <= rx.Settle(line).log;
    }
  }

  lemma {:induction false} InsertLength(line: seq<R.Numbered>, p: R.Numbered)
    ensures |R.Insert(line, p)| == |line| + 1
    decreases |line|
  {
    if line != [] && p.index >= line[0].index {
      InsertLength(line[1..], p);
    }
  }

  lemma {:induction false} ReceiveGivesUp(rx: R.Rx, k: nat, segment: R.Segment, j: nat)
    requires rx.Valid() && (Unwrap(|rx.log|, Wire(k)) == k || Unwrap(|rx.log|, Wire(k)) > |rx.log| + rx.size)
    requires var t := rx.Receive(Wire(k), segment); |rx.log| <= j < |t.log| && t.log[j] == None
    ensures k > j && |rx.pending| == 2 && forall p :: p in rx.pending ==> p.index > j && p.index != k
  {
    HasIsWaiting(rx.pending, k);
    var p := R.Numbered(k, segment);
    InsertLength(rx.pending, p);
    R.InsertMembers(rx.pending, p);
    R.SortedFrom(rx.pending, |rx.log| + 1, |rx.log|, |rx.log| + rx.size);
    R.InsertSorted(rx.pending, |rx.log|, |rx.log| + rx.size, p);
    SettleGivesUp(rx, R.Insert(rx.pending, p), j);
    assert p in R.Insert(rx.pending, p);
  }

  /** No arrival makes the receiver give up on a segment unless with it three later ones are in. */
  lemma {:induction false} GivesUpOnlyForThree(s: System, k: nat, j: nat)
    requires Inv(s) && Enabled(s, DeliverSegment(k))
    requires var t := Step(s, DeliverSegment(k)); |s.rx.log| <= j < |t.rx.log| && t.rx.log[j] == None
    ensures k > j && |s.rx.pending| == 2 && forall p :: p in s.rx.pending ==> p.index > j && p.index != k
  {
    WindowTells(|s.rx.log|, k, s.tx.next, s.rx.size);
    hide R.Rx.Receive;
    ReceiveGivesUp(s.rx, k, s.sent[k - s.start], j);
  }

  /** And then it does: what waits is never the segment awaited, and never more than two. */
  lemma {:induction false} NeverWaitsInVain(s: System)
    requires Inv(s)
    ensures |s.rx.pending| <= 2 && forall p :: p in s.rx.pending ==> p.index > |s.rx.log|
  {
    SortedMembers(s.rx.pending, |s.rx.log| + 1, |s.rx.log| + s.rx.size);
  }

  // ---- syncs ----

  /** With segments waiting, a sync to an index ahead within the window is heeded exactly if it is past them all;
      otherwise it changes nothing. */
  lemma {:induction false} SyncHeededExactly(s: System, k: nat)
    requires Inv(s) && Enabled(s, DeliverSync(k)) && s.rx.pending != []
    requires |s.rx.log| < k <= |s.rx.log| + s.rx.size
    ensures var t := Step(s, DeliverSync(k));
      if forall p :: p in s.rx.pending ==> p.index < k then
        && |t.rx.log| == k && t.rx.pending == []
        && forall j :: |s.rx.log| <= j < k ==>
             (t.rx.log[j].Some? <==> Waits(s.rx, j)) && (t.rx.log[j].Some? ==> t.rx.log[j].value == s.sent[j - s.start])
      else t.rx == s.rx
  {
    var rx := s.rx;
    UnwrapAhead(|rx.log|, k);
    LastDecides(rx, k);
    if rx.Syncs(Wire(k)) {
      R.SyncAccounts(rx, Wire(k));
      hide R.Rx.Syncs, R.Rx.Sync;
      var t := rx.Sync(Wire(k));
      forall j | |rx.log| <= j < k
        ensures (t.log[j].Some? <==> Waits(rx, j)) && (t.log[j].Some? ==> t.log[j].value == s.sent[j - s.start])
      {
        SettledBySync(rx, t, j);
      }
    }
  }

  lemma {:induction false} LastDecides(rx: R.Rx, k: nat)
    requires rx.Valid() && rx.pending != [] && Unwrap(|rx.log|, Wire(k)) == k <= |rx.log| + rx.size
    ensures rx.Syncs(Wire(k)) <==> forall p :: p in rx.pending ==> p.index < k
  {
    SortedLast(rx.pending, |rx.log| + 1, |rx.log| + rx.size);
    assert rx.pending[|rx.pending| - 1] in rx.pending;
  }

  lemma {:induction false} SettledBySync(rx: R.Rx, t: R.Rx, j: nat)
    requires |rx.log| <= j < |t.log|
    requires forall p :: p in rx.pending ==> R.Logged(t.log, p)
    requires forall i :: |rx.log| <= i < |t.log| && t.log[i].Some? ==> R.Numbered(i, t.log[i].value) in rx.pending
    ensures t.log[j].Some? <==> Waits(rx, j)
    ensures t.log[j].Some? ==> R.Numbered(j, t.log[j].value) in rx.pending
  {
    if Waits(rx, j) {
      var p :| p in rx.pending && p.index == j;
      assert R.Logged(t.log, p);
    }
    if t.log[j].Some? {
      var q := R.Numbered(j, t.log[j].value);
      assert q in rx.pending && q.index == j;
    }
  }

  lemma {:induction false} SortedLast(line: seq<R.Numbered>, lo: nat, hi: nat)
    requires R.Sorted(line, lo, hi)
    ensures forall p :: p in line ==> p.index <= line[|line| - 1].index
    decreases |line|
  {
    if |line| > 1 {
      SortedLast(line[1..], line[0].index + 1, hi);
      SortedMembers(line, lo, hi);
      assert line == [line[0]] + line[1..];
    }
  }
}
