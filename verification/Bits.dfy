/** Machine words used as bit fields: a word is the list of its bits, the lowest first. */
module Bits {

  type Word = seq<bool>

  function Fill(width: nat, bit: bool): (r: Word)
    ensures |r| == width && forall i :: 0 <= i < width ==> r[i] == bit
  {
    seq(width, _ => bit)
  }

  function Zero(width: nat): (r: Word)
    ensures |r| == width && forall i :: 0 <= i < width ==> !r[i]
  {
    Fill(width, false)
  }

  function Ones(width: nat): (r: Word)
    ensures |r| == width && forall i :: 0 <= i < width ==> r[i]
  {
    Fill(width, true)
  }

  /** `(1 << n) - 1` */
  function Mask(width: nat, n: nat): (r: Word)
    requires n <= width
    ensures |r| == width && forall i :: 0 <= i < width ==> r[i] == (i < n)
  {
    Ones(n) + Zero(width - n)
  }

  /** `1 << at` */
  function OneBit(width: nat, at: nat): (r: Word)
    requires at < width
    ensures |r| == width && forall i :: 0 <= i < width ==> r[i] == (i == at)
  {
    Zero(at) + [true] + Zero(width - at - 1)
  }

  /** `w << k`; bits shifted past the width are lost. */
  function Shl(w: Word, k: nat): (r: Word)
    ensures |r| == |w| && forall i :: 0 <= i < |w| ==> r[i] == (i >= k && w[i - k])
  {
    if k < |w| then Zero(k) + w[..|w| - k] else Zero(|w|)
  }

  /** `w >> k` */
  function Shr(w: Word, k: nat): (r: Word)
    ensures |r| == |w| && forall i :: 0 <= i < |w| ==> r[i] == (i + k < |w| && w[i + k])
  {
    if k < |w| then w[k..] + Zero(k) else Zero(|w|)
  }

  /** A cast to a wider or narrower word. */
  function Cast(w: Word, width: nat): (r: Word)
    ensures |r| == width && forall i :: 0 <= i < width ==> r[i] == (i < |w| && w[i])
  {
    if width <= |w| then w[..width] else w + Zero(width - |w|)
  }

  function And(a: Word, b: Word): (r: Word)
    requires |a| == |b|
    ensures |r| == |a| && forall i :: 0 <= i < |a| ==> r[i] == (a[i] && b[i])
  {
    if a == [] then [] else And(a[..|a| - 1], b[..|a| - 1]) + [a[|a| - 1] && b[|a| - 1]]
  }

  function Or(a: Word, b: Word): (r: Word)
    requires |a| == |b|
    ensures |r| == |a| && forall i :: 0 <= i < |a| ==> r[i] == (a[i] || b[i])
  {
    if a == [] then [] else Or(a[..|a| - 1], b[..|a| - 1]) + [a[|a| - 1] || b[|a| - 1]]
  }

  function Xor(a: Word, b: Word): (r: Word)
    requires |a| == |b|
    ensures |r| == |a| && forall i :: 0 <= i < |a| ==> r[i] == (a[i] != b[i])
  {
    if a == [] then [] else Xor(a[..|a| - 1], b[..|a| - 1]) + [a[|a| - 1] != b[|a| - 1]]
  }

  function Not(w: Word): (r: Word)
    ensures |r| == |w| && forall i :: 0 <= i < |w| ==> r[i] == !w[i]
  {
    if w == [] then [] else Not(w[..|w| - 1]) + [!w[|w| - 1]]
  }

  /** `w.leading_ones()` */
  function LeadingOnes(w: Word): (n: nat)
    ensures n <= |w|
    ensures forall i :: |w| - n <= i < |w| ==> w[i]
    ensures n < |w| ==> !w[|w| - 1 - n]
  {
    if w == [] || !w[|w| - 1] then 0 else 1 + LeadingOnes(w[..|w| - 1])
  }

  /** How many of the n lowest bits are set. */
  function CountBelow(w: Word, n: nat): nat
    requires n <= |w|
    decreases n
  {
    if n == 0 then 0 else CountBelow(w, n - 1) + if w[n - 1] then 1 else 0
  }

  /** `w.count_ones()` */
  function CountOnes(w: Word): nat {
    CountBelow(w, |w|)
  }

  /** Whether an odd number of the n lowest bits are set. */
  predicate Parity(w: Word, n: nat)
    requires n <= |w|
    decreases n
  {
    n > 0 && w[n - 1] != Parity(w, n - 1)
  }

  /** Folding a word onto itself halves the bits a parity ranges over. */
  lemma {:induction false} FoldParity(w: Word, n: nat)
    requires n + n <= |w|
    ensures Parity(Xor(w, Shr(w, n)), n) == Parity(w, n + n)
  {
    FoldParityPartly(w, Xor(w, Shr(w, n)), n, n);
  }

  lemma {:induction false} FoldParityPartly(w: Word, x: Word, n: nat, j: nat)
    requires j <= n && n + n <= |w| == |x|
    requires forall i :: 0 <= i < n ==> x[i] == (w[i] != w[i + n])
    ensures Parity(x, j) == (Parity(w, j) != (Parity(w, n + j) != Parity(w, n)))
    decreases j
  {
    if j > 0 {
      FoldParityPartly(w, x, n, j - 1);
      assert x[j - 1] == (w[j - 1] != w[j - 1 + n]);
    }
  }

  lemma {:induction false} CountSame(v: Word, w: Word, n: nat)
    requires n <= |v| && n <= |w| && forall i :: 0 <= i < n ==> v[i] == w[i]
    ensures CountBelow(v, n) == CountBelow(w, n)
    decreases n
  {
    if n > 0 {
      CountSame(v, w, n - 1);
    }
  }

  lemma {:induction false} CountNothingAbove(w: Word, m: nat, n: nat)
    requires m <= n <= |w| && forall i :: m <= i < n ==> !w[i]
    ensures CountBelow(w, n) == CountBelow(w, m)
    decreases n
  {
    if m < n {
      CountNothingAbove(w, m, n - 1);
    }
  }

  lemma {:induction false} CountGrows(w: Word, m: nat, n: nat)
    requires m <= n <= |w|
    ensures CountBelow(w, m) <= CountBelow(w, n)
    decreases n
  {
    if m < n {
      CountGrows(w, m, n - 1);
    }
  }
}
