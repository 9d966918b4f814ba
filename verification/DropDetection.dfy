/** Drop detection over the last 32 segments: when the sender reports a drop, and why shifting and
    counting the bits of one word finds out. */
module DropDetection {
  import opened Bits

  // ---- what a drop is ----

  /** The segments behind the base after it moved on by d; `acked[i]` says that the segment i + 1
      places behind is accounted for, and the d new ones are not. */
  function Aged(acked: Word, d: nat): (w: Word)
    ensures |w| == d + |acked|
    ensures forall i :: 0 <= i < |w| ==> w[i] == (i >= d && acked[i - d])
  {
    Zero(d) + acked
  }

  /** Some unaccounted segment would move further back than 32 places. */
  predicate AgesOut(acked: Word, d: nat)
    requires |acked| == 32
  {
    exists i :: 32 <= i < 32 + d && !Aged(acked, d)[i]
  }

  /** The 32 newest segments, with what the receiver reports added if its checksum is right. */
  function Merged(acked: Word, d: nat, heard: Word, trusted: bool): (w: Word)
    requires |acked| == |heard| == 32
    ensures |w| == 32
    ensures forall i :: 0 <= i < 32 ==> w[i] == (Aged(acked, d)[i] || (trusted && heard[i]))
  {
    seq(32, i requires 0 <= i < 32 => Aged(acked, d)[i] || (trusted && heard[i]))
  }

  /** An unaccounted segment counts as dropped once it is the 32nd, or three after it are in. */
  predicate DropAt(w: Word, g: nat)
    requires g < |w|
  {
    !w[g] && (g == |w| - 1 || CountBelow(w, g) >= 3)
  }

  predicate ShowsDrop(w: Word) {
    exists g :: 0 <= g < |w| && DropAt(w, g)
  }

  predicate Drops(acked: Word, d: nat, heard: Word, trusted: bool)
    requires |acked| == |heard| == 32
  {
    AgesOut(acked, d) || ShowsDrop(Merged(acked, d, heard, trusted))
  }

  /** Detection starts over after every drop. */
  function AckedAfter(acked: Word, d: nat, heard: Word, trusted: bool): (w: Word)
    requires |acked| == |heard| == 32
    ensures |w| == 32
  {
    if Drops(acked, d, heard, trusted) then Ones(32) else Merged(acked, d, heard, trusted)
  }

  // ---- how the bits show it ----

  lemma {:induction false} AgesOutByLeadingOnes(acked: Word, d: nat)
    requires |acked| == 32
    ensures AgesOut(acked, d) <==> d > LeadingOnes(acked)
  {
    var ones := LeadingOnes(acked);
    if d > ones {
      assert !Aged(acked, d)[if ones < 32 then 31 - ones + d else 32];
    }
  }

  lemma {:induction false} ShiftOutAndBack(w: Word, k: nat, i: nat)
    requires i < |w|
    ensures Shr(Shl(w, k), k)[i] == (i + k < |w| && w[i])
  {
    var moved := Shl(w, k);
    assert Shr(moved, k)[i] == (i + k < |w| && moved[i + k]);
  }

  /** Shifting the leading ones out and back leaves the ones after the first zero. */
  lemma {:induction false} OnesAfterZero(w: Word, ones: nat)
    requires ones < |w| && !w[|w| - 1 - ones]
    ensures CountOnes(Shr(Shl(w, ones), ones)) == CountBelow(w, |w| - 1 - ones)
  {
    var x := Shr(Shl(w, ones), ones);
    forall i: nat | i < |w|
      ensures x[i] == (i + ones < |w| && w[i])
    {
      ShiftOutAndBack(w, ones, i);
    }
    CountAfterZero(w, x, ones);
  }

  lemma {:induction false} CountAfterZero(w: Word, x: Word, ones: nat)
    requires |x| == |w| && ones < |w| && !w[|w| - 1 - ones]
    requires forall i: nat :: i < |w| ==> x[i] == (i + ones < |w| && w[i])
    ensures CountOnes(x) == CountBelow(w, |w| - 1 - ones)
  {
    CountNothingAbove(x, |w| - 1 - ones, |w|);
    CountSame(x, w, |w| - 1 - ones);
  }

  /** The oldest unaccounted segment decides. */
  lemma {:induction false} OldestDecides(w: Word)
    requires LeadingOnes(w) < |w|
    ensures ShowsDrop(w) <==> DropAt(w, |w| - 1 - LeadingOnes(w))
  {
    var oldest := |w| - 1 - LeadingOnes(w);
    if ShowsDrop(w) {
      var g :| 0 <= g < |w| && DropAt(w, g);
      assert g <= oldest;
      CountGrows(w, g, oldest);
    }
  }

  lemma {:induction false} NoGapNoDrop(w: Word)
    requires LeadingOnes(w) == |w|
    ensures w == Ones(|w|) && !ShowsDrop(w)
  {
  }
}
