/** The sending side of the segment layer: sizes and nonces of the segments in transit sit in rings
    addressed by wrapping identifiers, and the last 32 acknowledged nonces are pulled out of packed
    words. The contracts speak of unbounded indices and plain lists. */
module SegmentTx {
  import opened Words
  import opened Bits
  import opened DropDetection

  // ---- the sender, in unbounded indices ----

  function Sum(sizes: seq<nat>): nat
    decreases |sizes|
  {
    if sizes == [] then 0 else Sum(sizes[..|sizes| - 1]) + sizes[|sizes| - 1]
  }

  lemma {:induction false} SumNext(sizes: seq<nat>, bytes: nat)
    ensures Sum(sizes + [bytes]) == Sum(sizes) + bytes
  {
    assert (sizes + [bytes])[..|sizes|] == sizes;
  }

  lemma {:induction false} SumWithoutFirst(sizes: seq<nat>)
    requires sizes != []
    ensures Sum(sizes) == sizes[0] + Sum(sizes[1..])
    decreases |sizes|
  {
    var front := sizes[..|sizes| - 1];
    if front != [] {
      SumWithoutFirst(front);
      assert sizes[1..][..|sizes| - 2] == front[1..];
    }
  }

  /** The nonce of the segment i + 1 places behind index k; false before the first segment. */
  predicate NonceBehind(nonces: seq<bool>, k: nat, i: nat) {
    i < k <= |nonces| && nonces[k - 1 - i]
  }

  /** Parity of the nonces of those among the n segments behind k that `heard` reports. */
  predicate HeardParity(nonces: seq<bool>, k: nat, heard: Word, n: nat)
    requires n <= |heard|
    decreases n
  {
    n > 0 && ((heard[n - 1] && NonceBehind(nonces, k, n - 1)) != HeardParity(nonces, k, heard, n - 1))
  }

  /** Segments [base, next) are in transit, with their sizes; `nonces[k]` is the nonce of segment k. */
  datatype Tx = Tx(base: nat, next: nat, size: nat, sizes: seq<nat>, nonces: seq<bool>, acked: Word) {
    predicate Valid() {
      && base <= next <= base + size
      && |sizes| == next - base
      && |nonces| == next
      && |acked| == 32
    }

    predicate CanSend() {
      next - base < size
    }

    function Send(bytes: nat, nonce: bool): Tx {
      this.(next := next + 1, sizes := sizes + [bytes], nonces := nonces + [nonce])
    }

    /** Only identifiers of segments already sent, or of the next one, make sense in an acknowledgement. */
    predicate Accepts(id: u32) {
      Unwrap(base, id) <= next
    }

    /** Whether the checksum of an acknowledgement agrees with the nonces sent. */
    predicate Trusts(id: u32, heard: Word, checksum: bool)
      requires |heard| == 32
    {
      HeardParity(nonces, Unwrap(base, id), heard, |heard|) == checksum
    }

    predicate ReportsDrop(id: u32, heard: Word, checksum: bool)
      requires Valid() && |heard| == 32
    {
      Accepts(id) && Drops(acked, Unwrap(base, id) - base, heard, Trusts(id, heard, checksum))
    }

    function Acknowledge(id: u32, heard: Word, checksum: bool): Tx
      requires Valid() && |heard| == 32
    {
      var k := Unwrap(base, id);
      if k <= next then Advance(k, AckedAfter(acked, k - base, heard, Trusts(id, heard, checksum))) else this
    }

    function Advance(k: nat, acked': Word): Tx
      requires Valid() && base <= k <= next
    {
      this.(base := k, sizes := sizes[k - base..], acked := acked')
    }
  }

  /** A sender whose first segment has index `start`. */
  function InitTx(start: nat, size: nat): Tx {
    Tx(start, start, size, [], Zero(start), Ones(32))
  }

  lemma {:induction false} TxStepsKeepValid(tx: Tx, bytes: nat, nonce: bool, id: u32, heard: Word, checksum: bool)
    requires tx.Valid() && |heard| == 32
    ensures tx.CanSend() ==> tx.Send(bytes, nonce).Valid()
    ensures tx.Acknowledge(id, heard, checksum).Valid()
  {
  }

  // ---- rings ----

  /** Rings whose length divides 2^32 are addressed alike by indices and identifiers. */
  lemma {:induction false} TransitSlot(k: nat, log: nat)
    requires log <= 32
    ensures BitAnd(Wire(k), LowMask(log)) == Remainder(k, Pow2(log))
  {
    WireIsMod(k);
    RemainderIsMod(k, Pow2(log));
    AndMask(Wire(k), log);
    WordSizes();
    Pow2Add(log, 32 - log);
    ModOfMod(k, Pow2(log), Pow2(32 - log));
  }

  /** The word holding the nonce of segment k, and the bit within it. */
  function RingWord(k: nat, words: nat): nat
    requires words > 0
  {
    Remainder(k / 64, words)
  }

  function RingBit(k: nat): nat {
    63 - k % 64
  }

  lemma {:induction false} WireWord(k: nat)
    ensures Wire(k) / 64 == (k / 64) % 0x400_0000
    ensures Wire(k) % 64 == k % 64
  {
    WireIsMod(k);
    var lap, r := k / 0x1_0000_0000, Wire(k);
    assert k == 0x1_0000_0000 * lap + r;
    assert k / 64 == lap * 0x400_0000 + r / 64;
    ModUnique(k / 64, 0x400_0000, lap, r / 64);
  }

  lemma {:induction false} NonceSlot(k: nat, log: nat)
    requires log <= 26
    ensures BitAnd(Wire(k) / 64, LowMask(log)) == RingWord(k, Pow2(log)) < Pow2(log)
  {
    RemainderIsMod(k / 64, Pow2(log));
    WireWord(k);
    AndMask(Wire(k) / 64, log);
    WordSizes();
    Pow2Add(log, 26 - log);
    ModOfMod(k / 64, Pow2(log), Pow2(26 - log));
  }

  /** Two segments less than a ring apart have different places in it. */
  lemma {:induction false} DistinctSlots(j: nat, k: nat, size: nat)
    requires size > 0 && j < k < j + size
    ensures Remainder(j, size) != Remainder(k, size)
    decreases j
  {
    if j >= size {
      DistinctSlots(j - size, k - size, size);
    }
  }

  lemma {:induction false} DistinctBits(j: nat, k: nat, words: nat)
    requires words > 0 && j < k < j + 64 * words
    ensures RingWord(j, words) != RingWord(k, words) || RingBit(j) != RingBit(k)
  {
    if RingBit(j) == RingBit(k) {
      assert j % 64 == k % 64;
      DistinctSlots(j / 64, k / 64, words);
    }
  }

  function RingSize(buf: seq<nat>, k: nat): nat
    requires |buf| > 0
  {
    buf[Remainder(k, |buf|)]
  }

  /** The transit ring holds the sizes of segments [base, next). */
  ghost predicate TransitHolds(buf: seq<nat>, base: nat, next: nat, sizes: seq<nat>)
    requires |buf| > 0 && |sizes| == next - base
  {
    forall k {:trigger RingSize(buf, k)} :: base <= k < next ==> RingSize(buf, k) == sizes[k - base]
  }

  /** The bit of the nonce ring belonging to segment k. */
  predicate RingNonce(buf: seq<Word>, k: nat)
    requires |buf| > 0 && |buf[RingWord(k, |buf|)]| == 64
  {
    buf[RingWord(k, |buf|)][RingBit(k)]
  }

  ghost predicate WordsAre64(buf: seq<Word>) {
    |buf| > 0 && forall w :: w in buf ==> |w| == 64
  }

  ghost predicate NoncesHold(buf: seq<Word>, base: nat, next: nat, nonces: seq<bool>)
    requires WordsAre64(buf) && next <= |nonces|
  {
    forall k {:trigger RingNonce(buf, k)} :: base <= k < next ==> RingNonce(buf, k) == nonces[k]
  }

  ghost predicate HistoryHolds(history: Word, base: nat, nonces: seq<bool>) {
    |history| == 32 && forall i :: 0 <= i < 32 ==> history[i] == NonceBehind(nonces, base, i)
  }

  lemma {:induction false} TransitWrite(buf: seq<nat>, base: nat, next: nat, sizes: seq<nat>, bytes: nat)
    requires |buf| > 0 && |sizes| == next - base < |buf|
    requires TransitHolds(buf, base, next, sizes)
    ensures TransitHolds(buf[Remainder(next, |buf|) := bytes], base, next + 1, sizes + [bytes])
  {
    var buf' := buf[Remainder(next, |buf|) := bytes];
    forall k | base <= k < next
      ensures RingSize(buf', k) == RingSize(buf, k)
    {
      DistinctSlots(k, next, |buf|);
    }
  }

  lemma {:induction false} NonceSent(buf: seq<Word>, history: Word, base: nat, next: nat, nonces: seq<bool>)
    requires WordsAre64(buf) && base <= next == |nonces|
    requires NoncesHold(buf, base, next, nonces) && HistoryHolds(history, base, nonces)
    ensures NoncesHold(buf, base, next + 1, nonces + [RingNonce(buf, next)])
    ensures HistoryHolds(history, base, nonces + [RingNonce(buf, next)])
  {
  }

  lemma {:induction false} NonceWrite(buf: seq<Word>, base: nat, next: nat, nonces: seq<bool>, w: Word, nonce: bool)
    requires WordsAre64(buf) && next <= |nonces| && base <= next < base + 64 * |buf|
    requires NoncesHold(buf, base, next, nonces)
    requires |w| == 64
    requires forall i :: 0 <= i < 64 ==> w[i] == if i == RingBit(next) then nonce else buf[RingWord(next, |buf|)][i]
    ensures var buf' := buf[RingWord(next, |buf|) := w];
      WordsAre64(buf') && NoncesHold(buf', base, next, nonces) && RingNonce(buf', next) == nonce
  {
    var buf' := buf[RingWord(next, |buf|) := w];
    forall k | base <= k < next
      ensures RingNonce(buf', k) == RingNonce(buf, k)
    {
      DistinctBits(k, next, |buf|);
    }
  }

  // ---- pulling acknowledged nonces out of the ring ----

  /** The ring place of the segment i + 1 places behind k: in k's own word or in the one before. */
  lemma {:induction false} PlaceBehind(k: nat, i: nat)
    requires i < k && i < 64
    ensures i < k % 64 ==> (k - 1 - i) / 64 == k / 64 && RingBit(k - 1 - i) == i + (64 - k % 64)
    ensures i >= k % 64 ==> (k - 1 - i) / 64 == k / 64 - 1 && RingBit(k - 1 - i) == i - k % 64
  {
  }

  /** Whether the n segments behind k share k's word, seen from the identifiers. */
  lemma {:induction false} SameWordTest(k: nat, n: nat)
    requires 0 < n <= 32 && n <= k
    ensures Wire(k - n) / 64 == Wire(k) / 64 <==> n <= k % 64
    ensures n > k % 64 ==> (k - n) / 64 == k / 64 - 1
  {
    WireWord(k);
    WireWord(k - n);
    PlaceBehind(k, n - 1);
    if n <= k % 64 {
      assert (k - n) / 64 == k / 64;
    } else {
      WordsDiffer(k / 64);
    }
  }

  lemma {:induction false} WordsDiffer(q: nat)
    requires q > 0
    ensures (q - 1) % 0x400_0000 != q % 0x400_0000
  {
  }

  /** The field holds, at bits [from, to), the nonces that many places behind k, and nothing else. */
  ghost predicate Behind(field: Word, k: nat, from: nat, to: nat, nonces: seq<bool>)
    requires to <= k <= |nonces|
  {
    |field| == 32 && forall i :: 0 <= i < 32 ==> field[i] == (from <= i < to && nonces[k - 1 - i])
  }

  /** `((w >> (64 - low)) & ((1 << n) - 1)) as u32` */
  function HighBits(w: Word, low: nat, n: nat): (r: Word)
    requires |w| == 64 && n <= low < 64 && n <= 32
    ensures |r| == 32 && forall i :: 0 <= i < 32 ==> r[i] == (i < n && w[i + (64 - low)])
  {
    Cast(And(Shr(w, 64 - low), Mask(64, n)), 32)
  }

  /** `((w & ((1 << n) - 1)) << low) as u32` */
  function LowBits(w: Word, low: nat, n: nat): (r: Word)
    requires |w| == 64 && low + n <= 32
    ensures |r| == 32 && forall i :: 0 <= i < 32 ==> r[i] == (low <= i < low + n && w[i - low])
  {
    Cast(Shl(And(w, Mask(64, n)), low), 32)
  }

  /** The nonces in k's own word. */
  lemma {:induction false} FieldB(buf: seq<Word>, base: nat, k: nat, n: nat, nonces: seq<bool>)
    requires WordsAre64(buf) && base + n <= k <= |nonces| && n <= 32 && 0 < n <= k % 64
    requires NoncesHold(buf, base, k, nonces)
    ensures Behind(HighBits(buf[RingWord(k, |buf|)], k % 64, n), k, 0, n, nonces)
  {
    var field := HighBits(buf[RingWord(k, |buf|)], k % 64, n);
    forall i | 0 <= i < n
      ensures field[i] == nonces[k - 1 - i]
    {
      PlaceBehind(k, i);
      assert RingNonce(buf, k - 1 - i) == nonces[k - 1 - i];
    }
  }

  /** The nonces in the word before k's, moved up past those in k's own word. */
  lemma {:induction false} FieldA(buf: seq<Word>, base: nat, k: nat, n: nat, nonces: seq<bool>)
    requires WordsAre64(buf) && base + n <= k <= |nonces| && k % 64 < n <= 32
    requires NoncesHold(buf, base, k, nonces)
    ensures Behind(LowBits(buf[RingWord(k - n, |buf|)], k % 64, n - k % 64), k, k % 64, n, nonces)
  {
    SameWordTest(k, n);
    var field := LowBits(buf[RingWord(k - n, |buf|)], k % 64, n - k % 64);
    forall i | k % 64 <= i < n
      ensures field[i] == nonces[k - 1 - i]
    {
      PlaceBehind(k, i);
      assert RingNonce(buf, k - 1 - i) == nonces[k - 1 - i];
    }
  }

  /** How many of the segments between two bases are recent enough to matter. */
  predicate IsNewest(base: nat, k: nat, n: nat) {
    base < k && n == if k - base < 32 then k - base else 32
  }

  /** The history with room for n new bits. */
  function MakeRoom(history: Word, n: nat): (r: Word)
    requires |history| == 32
    ensures |r| == 32 && forall i :: 0 <= i < 32 ==> r[i] == (i >= n && history[i - n])
  {
    if n == 32 then Zero(32) else Shl(history, n)
  }

  lemma {:induction false} PutOne(history: Word, base: nat, k: nat, n: nat, nonces: seq<bool>, field: Word)
    requires IsNewest(base, k, n) && k <= |nonces| && HistoryHolds(history, base, nonces)
    requires Behind(field, k, 0, n, nonces)
    ensures HistoryHolds(Or(MakeRoom(history, n), field), k, nonces)
  {
  }

  lemma {:induction false} PutTwo(history: Word, base: nat, k: nat, n: nat, nonces: seq<bool>, b: Word, a: Word,
                                  low: nat)
    requires IsNewest(base, k, n) && k <= |nonces| && HistoryHolds(history, base, nonces)
    requires low <= n && Behind(b, k, 0, low, nonces) && Behind(a, k, low, n, nonces)
    ensures HistoryHolds(Or(Or(MakeRoom(history, n), b), a), k, nonces)
  {
  }

  lemma {:induction false} PullOne(ring: seq<Word>, history: Word, base: nat, k: nat, n: nat, nonces: seq<bool>,
                                   iB: nat, low: nat)
    requires WordsAre64(ring) && IsNewest(base, k, n) && k <= |nonces|
    requires NoncesHold(ring, base, k, nonces) && HistoryHolds(history, base, nonces)
    requires n <= low == k % 64 && iB == RingWord(k, |ring|)
    ensures HistoryHolds(Or(MakeRoom(history, n), HighBits(ring[iB], low, n)), k, nonces)
  {
    var field := HighBits(ring[iB], low, n);
    assert Behind(field, k, 0, n, nonces) by { FieldB(ring, base, k, n, nonces); }
    PutOne(history, base, k, n, nonces, field);
  }

  lemma {:induction false} PullLowest(ring: seq<Word>, history: Word, base: nat, k: nat, n: nat, nonces: seq<bool>,
                                      iA: nat)
    requires WordsAre64(ring) && IsNewest(base, k, n) && k <= |nonces|
    requires NoncesHold(ring, base, k, nonces) && HistoryHolds(history, base, nonces)
    requires k % 64 == 0 && iA == RingWord(k - n, |ring|)
    ensures HistoryHolds(Or(MakeRoom(history, n), LowBits(ring[iA], 0, n)), k, nonces)
  {
    var field := LowBits(ring[iA], 0, n);
    assert Behind(field, k, 0, n, nonces) by { FieldA(ring, base, k, n, nonces); }
    PutOne(history, base, k, n, nonces, field);
  }

  lemma {:induction false} PullTwo(ring: seq<Word>, history: Word, base: nat, k: nat, n: nat, nonces: seq<bool>,
                                   iA: nat, iB: nat, low: nat)
    requires WordsAre64(ring) && IsNewest(base, k, n) && k <= |nonces|
    requires NoncesHold(ring, base, k, nonces) && HistoryHolds(history, base, nonces)
    requires 0 < low == k % 64 < n && iA == RingWord(k - n, |ring|) && iB == RingWord(k, |ring|)
    ensures var b, a := HighBits(ring[iB], low, low), LowBits(ring[iA], low, n - low);
      HistoryHolds(Or(Or(MakeRoom(history, n), b), a), k, nonces)
  {
    var b, a := HighBits(ring[iB], low, low), LowBits(ring[iA], low, n - low);
    assert Behind(b, k, 0, low, nonces) by { FieldB(ring, base, k, low, nonces); }
    assert Behind(a, k, low, n, nonces) by { FieldA(ring, base, k, n, nonces); }
    PutTwo(history, base, k, n, nonces, b, a, low);
  }

  lemma {:induction false} ParityIsHeardParity(history: Word, base: nat, nonces: seq<bool>, heard: Word, n: nat)
    requires HistoryHolds(history, base, nonces) && |heard| == 32 && n <= 32
    ensures Parity(And(history, heard), n) == HeardParity(nonces, base, heard, n)
    decreases n
  {
    if n > 0 {
      ParityIsHeardParity(history, base, nonces, heard, n - 1);
    }
  }

  // ---- merging acknowledgements ----

  lemma {:induction false} MergedByShift(acked: Word, d: nat, heard: Word, trusted: bool, x: Word)
    requires |acked| == |heard| == |x| == 32 && d <= 32
    requires x == if d == 32 then Zero(32) else Shl(acked, d)
    ensures Merged(acked, d, heard, trusted) == if trusted then Or(x, heard) else x
  {
    forall i | 0 <= i < 32
      ensures x[i] == Aged(acked, d)[i]
    {
    }
  }

  lemma {:induction false} HasGap(w: Word)
    requires |w| == 32 && w != Ones(32)
    ensures LeadingOnes(w) < 32
  {
    if LeadingOnes(w) == 32 {
      NoGapNoDrop(w);
    }
  }

  lemma {:induction false} TopBit(w: Word)
    requires |w| == 32
    ensures Shr(w, 31) == Zero(32) <==> !w[31]
  {
    assert Shr(w, 31)[0] == w[31];
  }

  /** The fields besides the identifiers stand for the sender's state. */
  ghost predicate Holds(tx: Tx, slots: seq<nat>, ring: seq<Word>, total: nat, nonceHistory: Word, ackHistory: Word)
  {
    && tx.Valid() && tx.acked == ackHistory
    && |slots| > 0 && TransitHolds(slots, tx.base, tx.next, tx.sizes) && total == Sum(tx.sizes)
    && WordsAre64(ring) && NoncesHold(ring, tx.base, tx.next, tx.nonces)
    && HistoryHolds(nonceHistory, tx.base, tx.nonces)
  }

  lemma {:induction false} AdvanceHolds(tx: Tx, k: nat, slots: seq<nat>, ring: seq<Word>, total: nat,
                                        nonceHistory: Word,
                     total': nat, nonceHistory': Word, acked': Word)
    requires Holds(tx, slots, ring, total, nonceHistory, tx.acked) && tx.base <= k <= tx.next
    requires total' == Sum(tx.sizes[k - tx.base..])
    requires HistoryHolds(nonceHistory', k, tx.nonces) && |acked'| == 32
    ensures Holds(tx.Advance(k, acked'), slots, ring, total', nonceHistory', acked')
  {
    TransitShrinks(slots, tx.base, k, tx.next, tx.sizes);
  }

  lemma {:induction false} TransitShrinks(buf: seq<nat>, base: nat, k: nat, next: nat, sizes: seq<nat>)
    requires |buf| > 0 && |sizes| == next - base && base <= k <= next
    requires TransitHolds(buf, base, next, sizes)
    ensures TransitHolds(buf, k, next, sizes[k - base..])
  {
  }

  /** The low bits of identifiers address a ring as indices modulo its length do. */
  predicate SlotAgrees(mask: nat, size: nat, k: nat)
    requires size > 0
  {
    BitAnd(Wire(k), mask) == Remainder(k, size)
  }

  predicate WordAgrees(mask: nat, words: nat, k: nat)
    requires words > 0
  {
    BitAnd(Wire(k) / 64, mask) == RingWord(k, words)
  }

  ghost predicate SlotsAgree(mask: nat, size: nat)
    requires size > 0
  {
    forall k: nat :: SlotAgrees(mask, size, k)
  }

  ghost predicate WordsAgree(mask: nat, words: nat)
    requires words > 0
  {
    forall k: nat :: WordAgrees(mask, words, k)
  }

  lemma {:induction false} SlotsFromLog(size: u32, log: nat)
    requires size == Pow2(log) && size >= 64
    ensures size == 64 * (size / 64)
    ensures SlotsAgree(size - 1, size) && WordsAgree(size / 64 - 1, size / 64)
  {
    RingLog(size, log);
    var mask, words := size - 1, size / 64;
    var wordMask := words - 1;
    forall k: nat
      ensures SlotAgrees(mask, size, k)
    {
      TransitSlot(k, log);
    }
    forall k: nat
      ensures WordAgrees(wordMask, words, k)
    {
      NonceSlot(k, log - 6);
    }
  }

  lemma {:induction false} RingLog(size: u32, log: nat)
    requires size == Pow2(log) && size >= 64
    ensures 6 <= log < 32 && Pow2(log) == 64 * Pow2(log - 6) && Pow2(log - 6) == size / 64
  {
    WordSizes();
    if log < 6 {
      Pow2Grows(log, 6);
    } else if log > 32 {
      Pow2Grows(32, log);
    }
    Pow2Add(6, log - 6);
  }

  class SegmentTx {
    var baseId: u32
    var nextId: u32
    const size: u32

    // Sizes of the segments in [base, next).
    const transitBuf: array<nat>
    const transitBufMask: u32

    // Nonces of the segments in [base, next), 64 to a word, the earliest highest.
    const nonceBuf: array<Word>
    const nonceBufMask: u32

    var transitTotal: nat
    var ackHistory: Word
    var nonceHistory: Word

    // The indices behind the identifiers, and the contents of the rings as lists.
    ghost var model: Tx

    ghost predicate Shape()
      reads this
    {
      && size > 0 && transitBuf.Length == size && SlotsAgree(transitBufMask, size)
      && nonceBuf.Length > 0 && 64 * nonceBuf.Length == size && WordsAgree(nonceBufMask, nonceBuf.Length)
    }

    ghost predicate Valid()
      reads this, transitBuf, nonceBuf
    {
      && Shape()
      && model.size == size && baseId == Wire(model.base) && nextId == Wire(model.next)
      && Holds(model, transitBuf[..], nonceBuf[..], transitTotal, nonceHistory, ackHistory)
    }

    /** The nonce stored for the segment sent next. */
    ghost predicate NextNonce()
      requires Valid()
      reads this, transitBuf, nonceBuf
    {
      RingNonce(nonceBuf[..], model.next)
    }

    constructor (baseId: u32, size: u32)
      requires size > 0 && BitAnd(size - 1, size) == 0
      requires size >= 64
      ensures Valid() && model == InitTx(baseId, size)
      ensures fresh(transitBuf) && fresh(nonceBuf)
    {
      Pow2Test(size);
      ghost var log: nat :| size == Pow2(log);
      this.baseId := baseId;
      nextId := baseId;
      this.size := size;
      transitBuf := new nat[size](_ => 0);
      transitBufMask := size - 1;
      transitTotal := 0;
      nonceBuf := new Word[size / 64](_ => Zero(64));
      nonceBufMask := size / 64 - 1;
      ackHistory := Ones(32);
      nonceHistory := Zero(32);
      model := InitTx(baseId, size);
      SlotsFromLog(size, log);
    }

    /** Stores the nonce drawn for the segment about to be sent. */
    method ComputeNextNonce(draw: bool) returns (nonce: bool)
      requires Valid() && model.CanSend()
      modifies nonceBuf
      ensures Valid() && model == old(model)
      ensures nonce == draw == NextNonce()
    {
      nonce := draw;
      ghost var before := nonceBuf[..];
      WireWord(model.next);
      assert WordAgrees(nonceBufMask, nonceBuf.Length, model.next);

      var idx := BitAnd(nextId / 64, nonceBufMask);
      var bitMask := OneBit(64, 63 - nextId % 64);
      assert before[idx] in before;

      if nonce {
        nonceBuf[idx] := Or(nonceBuf[idx], bitMask);
      } else {
        nonceBuf[idx] := And(nonceBuf[idx], Not(bitMask));
      }

      NonceWrite(before, model.base, model.next, model.nonces, nonceBuf[idx], nonce);
      assert nonceBuf[..] == before[RingWord(model.next, |before|) := nonceBuf[idx]];
    }

    method CanSend() returns (can: bool)
      requires Valid()
      ensures can == model.CanSend()
    {
      WireDistance(model.base, model.next);
      can := WrapSub(nextId, baseId) < size;
    }

    method MarkSent(bytes: nat)
      requires Valid() && model.CanSend()
      modifies this, transitBuf
      ensures Valid() && model == old(model).Send(bytes, old(NextNonce()))
    {
      ghost var tx, slots, ring := model, transitBuf[..], nonceBuf[..];
      ghost var after := tx.Send(bytes, RingNonce(ring, tx.next));
      TransitWrite(slots, tx.base, tx.next, tx.sizes, bytes);
      NonceSent(ring, nonceHistory, tx.base, tx.next, tx.nonces);
      SumNext(tx.sizes, bytes);
      WireNext(tx.next);
      assert SlotAgrees(transitBufMask, size, tx.next);

      var idx := BitAnd(nextId, transitBufMask);
      transitBuf[idx] := bytes;
      assert transitBuf[..] == slots[idx := bytes] && nonceBuf[..] == ring;
      transitTotal := transitTotal + bytes;
      nextId := WrapAdd(nextId, 1);
      model := after;
    }

    method BytesInTransit() returns (total: nat)
      requires Valid()
      ensures total == Sum(model.sizes)
    {
      total := transitTotal;
    }

    /** The nonce history once the base has moved on to index k. */
    method NonceHistoryAfter(ackDelta: u32, baseIdNew: u32, ghost k: nat) returns (x: Word)
      requires Shape() && 0 < ackDelta == k - model.base && k <= |model.nonces| && baseIdNew == Wire(k)
      requires WordsAre64(nonceBuf[..]) && NoncesHold(nonceBuf[..], model.base, k, model.nonces)
      requires HistoryHolds(nonceHistory, model.base, model.nonces)
      ensures HistoryHolds(x, k, model.nonces)
    {
      // At most 32 bits are extracted, those of the identifiers [p0, p1).
      var newBits := if ackDelta < 32 then ackDelta else 32;
      var p1 := baseIdNew;
      var p0 := WrapSub(baseIdNew, newBits);

      var p0Idx := p0 / 64;
      var p1Bits := p1 % 64;
      var p1Idx := p1 / 64;
      ghost var ring := nonceBuf[..];

      var iA := BitAnd(p0Idx, nonceBufMask);
      var iB := BitAnd(p1Idx, nonceBufMask);
      assert iA == RingWord(k - newBits, |ring|) && iB == RingWord(k, |ring|) && p1Bits == k % 64
          && (p0Idx == p1Idx <==> newBits <= k % 64) by {
        WireBack(k, newBits);
        WireWord(k);
        SameWordTest(k, newBits);
        assert WordAgrees(nonceBufMask, |ring|, k) && WordAgrees(nonceBufMask, |ring|, k - newBits);
      }
      assert ring[iA] in ring && ring[iB] in ring;

      // Shift out room for them.
      x := MakeRoom(nonceHistory, newBits);

      if p0Idx == p1Idx {
        // The new bits come from one word.
        PullOne(ring, nonceHistory, model.base, k, newBits, model.nonces, iB, p1Bits);
        x := Or(x, HighBits(nonceBuf[iB], p1Bits, newBits));
      } else if p1Bits == 0 {
        // The new bits are the lowest of the word before.
        PullLowest(ring, nonceHistory, model.base, k, newBits, model.nonces, iA);
        x := Or(x, LowBits(nonceBuf[iA], 0, newBits));
      } else {
        // The new bits cross from the word before into this one.
        PullTwo(ring, nonceHistory, model.base, k, newBits, model.nonces, iA, iB, p1Bits);
        x := Or(x, HighBits(nonceBuf[iB], p1Bits, p1Bits));
        x := Or(x, LowBits(nonceBuf[iA], p1Bits, newBits - p1Bits));
      }
    }

    /** `x ^= x >> n` */
    static method Fold(x: Word, n: nat) returns (y: Word)
      requires |x| == 32 && n + n <= 32
      ensures |y| == 32 && Parity(y, n) == Parity(x, n + n)
    {
      FoldParity(x, n);
      y := Xor(x, Shr(x, n));
    }

    static method ExpectedChecksum(nonceHistory: Word, rxHistory: Word) returns (checksum: bool)
      requires |nonceHistory| == |rxHistory| == 32
      ensures checksum == Parity(And(nonceHistory, rxHistory), |rxHistory|)
    {
      var x := And(nonceHistory, rxHistory);
      x := Fold(x, 16);
      x := Fold(x, 8);
      x := Fold(x, 4);
      x := Fold(x, 2);
      x := Fold(x, 1);
      checksum := x[0];
      assert Parity(x, 1) == x[0];
    }

    /** Looks for a drop among the last 32 segments. */
    static method DetectDrop(x: Word) returns (drop: bool)
      requires |x| == 32
      ensures drop == ShowsDrop(x)
    {
      if x == Ones(32) {
        // All segments are accounted for.
        NoGapNoDrop(x);
        return false;
      }

      HasGap(x);
      OldestDecides(x);
      TopBit(x);
      if Shr(x, 31) == Zero(32) {
        // The oldest unaccounted segment is 32 segments old.
        return true;
      }

      // Three segments after the first unaccounted one may have been reported.
      var leadingOnes := LeadingOnes(x);
      OnesAfterZero(x, leadingOnes);
      return CountOnes(Shr(Shl(x, leadingOnes), leadingOnes)) >= 3;
    }

    /** Merges an acknowledgement into the record of the last 32 segments; after a drop detection
        starts over. */
    method UpdateAckHistory(ackDelta: u32, rxHistory: Word, rxChecksum: bool, ghost trusted: bool) returns (drop: bool)
      requires |ackHistory| == |nonceHistory| == |rxHistory| == 32
      requires trusted == (Parity(And(nonceHistory, rxHistory), |rxHistory|) == rxChecksum)
      modifies `ackHistory
      ensures drop == Drops(old(ackHistory), ackDelta, rxHistory, trusted)
      ensures ackHistory == AckedAfter(old(ackHistory), ackDelta, rxHistory, trusted)
    {
      AgesOutByLeadingOnes(ackHistory, ackDelta);
      if ackDelta > LeadingOnes(ackHistory) {
        // Shifting would move a zero more than 32 places back.
        ackHistory := Ones(32);
        return true;
      }

      // Shift in a zero for every new segment.
      var x := if ackDelta == 32 then Zero(32) else Shl(ackHistory, ackDelta);
      MergedByShift(ackHistory, ackDelta, rxHistory, trusted, x);

      var checksum := ExpectedChecksum(nonceHistory, rxHistory);
      if checksum == rxChecksum {
        x := Or(x, rxHistory);
      }
      ghost var merged := Merged(ackHistory, ackDelta, rxHistory, trusted);
      assert x == merged;

      drop := DetectDrop(x);
      ackHistory := if drop then Ones(32) else x;
    }

    /** Handles an acknowledgement; returns whether it reveals a drop. */
    method Acknowledge(rxBaseId: u32, rxHistory: Word, rxChecksum: bool) returns (drop: bool)
      requires Valid() && |rxHistory| == 32
      modifies this
      ensures Valid() && model == old(model).Acknowledge(rxBaseId, rxHistory, rxChecksum)
      ensures drop == old(model).ReportsDrop(rxBaseId, rxHistory, rxChecksum)
    {
      ghost var k, trusted := Unwrap(model.base, rxBaseId), model.Trusts(rxBaseId, rxHistory, rxChecksum);
      UnwrapWire(model.base, rxBaseId);
      WireDistance(model.base, model.next);
      var ackDelta := WrapSub(rxBaseId, baseId);

      if ackDelta <= WrapSub(nextId, baseId) {
        drop := Accept(ackDelta, rxBaseId, rxHistory, rxChecksum, k, trusted);
      } else {
        // An invalid acknowledgement is not a drop.
        drop := false;
      }
    }

    method Accept(ackDelta: u32, rxBaseId: u32, rxHistory: Word, rxChecksum: bool, ghost k: nat, ghost trusted: bool)
      returns (drop: bool)
      requires Valid() && |rxHistory| == 32
      requires ackDelta == k - model.base && k <= model.next && rxBaseId == Wire(k)
      requires trusted == (HeardParity(model.nonces, k, rxHistory, |rxHistory|) == rxChecksum)
      modifies this
      ensures Valid()
      ensures model == old(model).Advance(k, AckedAfter(old(model).acked, ackDelta, rxHistory, trusted))
      ensures drop == Drops(old(model).acked, ackDelta, rxHistory, trusted)
    {
      ghost var tx, slots, ring, total, history := model, transitBuf[..], nonceBuf[..], transitTotal, nonceHistory;
      AdvanceBase(ackDelta, rxBaseId, k);
      ParityIsHeardParity(nonceHistory, k, tx.nonces, rxHistory, |rxHistory|);
      drop := UpdateAckHistory(ackDelta, rxHistory, rxChecksum, trusted);
      AdvanceHolds(tx, k, slots, ring, total, history, transitTotal, nonceHistory, ackHistory);
      model := tx.Advance(k, ackHistory);
    }

    /** Moves the base on to index k: the sizes before it leave the total, their nonces join the history. */
    method AdvanceBase(ackDelta: u32, rxBaseId: u32, ghost k: nat)
      requires Valid() && ackDelta == k - model.base && k <= model.next && rxBaseId == Wire(k)
      modifies `transitTotal, `nonceHistory, `baseId
      ensures transitTotal == Sum(model.sizes[ackDelta..]) && baseId == Wire(k)
      ensures HistoryHolds(nonceHistory, k, model.nonces)
    {
      if ackDelta > 0 {
        // Everything before the acknowledged base has very likely left the network.
        SubtractTransit(ackDelta);
        nonceHistory := NonceHistoryAfter(ackDelta, rxBaseId, k);
        baseId := rxBaseId;
      } else {
        assert model.sizes[0..] == model.sizes;
      }
    }

    method SubtractTransit(ackDelta: u32)
      requires Shape() && model.Valid() && ackDelta <= model.next - model.base && baseId == Wire(model.base)
      requires TransitHolds(transitBuf[..], model.base, model.next, model.sizes) && transitTotal == Sum(model.sizes)
      requires model.size == size
      modifies `transitTotal
      ensures transitTotal == Sum(model.sizes[ackDelta..])
    {
      ghost var slots, sizes := transitBuf[..], model.sizes;
      var i := 0;
      assert sizes[0..] == sizes;
      while i < ackDelta
        invariant i <= ackDelta && transitTotal == Sum(sizes[i..])
      {
        ghost var k := model.base + i;
        assert WrapAdd(baseId, i) == Wire(k) by { WireAhead(model.base, i); }
        assert SlotAgrees(transitBufMask, size, k);
        var idx := BitAnd(WrapAdd(baseId, i), transitBufMask);
        assert transitBuf[idx] == RingSize(slots, k) == sizes[i];
        SumWithoutFirst(sizes[i..]);
        assert sizes[i..][1..] == sizes[i + 1..];
        transitTotal := transitTotal - transitBuf[idx];
        i := i + 1;
      }
    }
  }
}
