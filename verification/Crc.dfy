/** The frame checksum: the byte-at-a-time CRC-32 equals bit-serial division, and detects every
    corruption confined to four consecutive bytes of a frame, its checksum included.

    The lemmas speak of an arbitrary single-bit step `f` and use only that it is linear over GF(2)
    or injective; the division itself is their instance at `ShiftBit`. */
module Crc {
  import opened Words
  import opened CrcTable

  const INITIAL_CRC: bv32 := 0
  const BYTE: nat := 8
  const WORD: nat := 4 * BYTE

  // ---- specification ----

  /** Addition over GF(2). */
  function Plus(a: bv32, b: bv32): bv32 {
    a ^ b
  }

  function Iterate(f: bv32 -> bv32, x: bv32, n: nat): bv32
    decreases n
  {
    if n == 0 then x else f(Iterate(f, x, n - 1))
  }

  /** The register after taking in a whole message, first byte first, eight steps a byte. */
  function Divide(f: bv32 -> bv32, reg: bv32, data: seq<byte>): bv32
    decreases |data|
  {
    if data == [] then reg
    else TakeIn(f, Divide(f, reg, data[..|data| - 1]), data[|data| - 1])
  }

  function TakeIn(f: bv32 -> bv32, reg: bv32, b: byte): bv32 {
    Iterate(f, Plus(reg, Widen(b)), BYTE)
  }

  /** The checksum of a message continued from an earlier checksum. */
  function Checksum(initial: bv32, data: seq<byte>): bv32 {
    Complement(Divide(ShiftBit, Complement(initial), data))
  }

  lemma {:induction false} DivideAppend(f: bv32 -> bv32, reg: bv32, a: seq<byte>, b: seq<byte>)
    ensures Divide(f, reg, a + b) == Divide(f, Divide(f, reg, a), b)
    decreases |b|
  {
    if b == [] {
      assert a + b == a;
    } else {
      assert (a + b)[..|a + b| - 1] == a + b[..|b| - 1];
      DivideAppend(f, reg, a, b[..|b| - 1]);
    }
  }

  // ---- linearity over GF(2) ----

  ghost predicate Linear(f: bv32 -> bv32) {
    forall a, b {:trigger f(Plus(a, b))} :: f(Plus(a, b)) == Plus(f(a), f(b))
  }

  lemma {:induction false} ShiftBitLinear(x: bv32, y: bv32)
    ensures ShiftBit(x ^ y) == ShiftBit(x) ^ ShiftBit(y)
  {
    if x & 1 != 0 {
      assert (x ^ y) & 1 == 1 ^ (y & 1);
    } else if y & 1 != 0 {
      assert (x ^ y) & 1 != 0;
    } else {
      assert (x ^ y) & 1 == 0;
    }
  }

  lemma {:induction false} ShiftBitIsLinear()
    ensures Linear(ShiftBit)
  {
    forall a, b
      ensures ShiftBit(Plus(a, b)) == Plus(ShiftBit(a), ShiftBit(b))
    {
      ShiftBitLinear(a, b);
    }
  }

  lemma {:induction false} IterateLinear(f: bv32 -> bv32, x: bv32, y: bv32, n: nat)
    requires Linear(f)
    ensures Iterate(f, Plus(x, y), n) == Plus(Iterate(f, x, n), Iterate(f, y, n))
    decreases n
  {
    if n > 0 {
      IterateLinear(f, x, y, n - 1);
    }
  }

  // ---- the table advances eight steps at once ----

  lemma {:induction false} EightBits(reg: bv32)
    ensures Iterate(ShiftBit, reg, BYTE) == Shift8(reg)
  {
    var r4 := Iterate(ShiftBit, reg, 4);
    assert r4 == ShiftBit(ShiftBit(ShiftBit(ShiftBit(reg))));
    assert Iterate(ShiftBit, reg, 6) == ShiftBit(ShiftBit(r4));
  }

  /** A register whose lowest byte is clear is only shifted. */
  lemma {:induction false} EightBitsHigh(x: bv32)
    requires x & 0xFF == 0
    ensures Iterate(ShiftBit, x, BYTE) == x >> 8
  {
    EightBits(x);
  }

  lemma {:induction false} TableEntry(code: byte)
    ensures PartialResult(code) == Complement(Iterate(ShiftBit, Complement(Widen(code)), BYTE))
  {
    PartialResultRight(code);
    EightBits(Complement(Widen(code)));
  }

  function HighBytes(crc: bv32): bv32 {
    crc & 0xFFFFFF00
  }

  function TableIndex(crc: bv32, b: byte): byte {
    (crc & 0xFF) as byte ^ b
  }

  function ShiftByte(crc: bv32): bv32 {
    crc >> 8
  }

  lemma {:induction false} SplitRegister(crc: bv32, b: byte)
    ensures Plus(Complement(crc), Widen(b)) == Plus(HighBytes(crc), Complement(Widen(TableIndex(crc, b))))
  {
  }

  lemma {:induction false} HighBytesShift(crc: bv32)
    ensures Iterate(ShiftBit, HighBytes(crc), BYTE) == ShiftByte(crc)
  {
    assert (crc & 0xFFFFFF00) & 0xFF == 0;
    EightBitsHigh(crc & 0xFFFFFF00);
  }

  lemma {:induction false} ComplementMoves(x: bv32, y: bv32)
    ensures Complement(Plus(x, y)) == Plus(x, Complement(y))
  {
  }

  lemma {:induction false} StepOfSum(f: bv32 -> bv32, high: bv32, low: bv32, n: nat)
    requires Linear(f)
    ensures Complement(Iterate(f, Plus(high, low), n)) == Plus(Iterate(f, high, n), Complement(Iterate(f, low, n)))
  {
    IterateLinear(f, high, low, n);
    ComplementMoves(Iterate(f, high, n), Iterate(f, low, n));
  }

  /** One lookup advances the complemented register as eight single-bit steps do. */
  lemma {:induction false} TableStep(crc: bv32, b: byte)
    ensures Plus(ShiftByte(crc), PartialResult(TableIndex(crc, b))) == Complement(TakeIn(ShiftBit, Complement(crc), b))
  {
    var low := Complement(Widen(TableIndex(crc, b)));
    TableEntry(TableIndex(crc, b));
    HighBytesShift(crc);
    ShiftBitIsLinear();
    SplitRegister(crc, b);
    StepOfSum(ShiftBit, HighBytes(crc), low, BYTE);
  }

  lemma {:induction false} ComplementTwice(x: bv32)
    ensures Complement(Complement(x)) == x
  {
  }

  lemma {:induction false} ChecksumStep(initial: bv32, data: seq<byte>, b: byte)
    ensures var crc := Checksum(initial, data);
      Checksum(initial, data + [b]) == Plus(ShiftByte(crc), PartialResult(TableIndex(crc, b)))
  {
    assert (data + [b])[..|data|] == data;
    TableStep(Checksum(initial, data), b);
    ComplementTwice(Divide(ShiftBit, Complement(initial), data));
  }

  // ---- the two implementations ----

  /** The reference loop: eight single-bit steps for every byte. */
  method ExtendSlow(initial: bv32, data: seq<byte>) returns (crc: bv32)
    ensures crc == Checksum(initial, data)
  {
    var reg := Complement(initial);
    for i := 0 to |data|
      invariant reg == Divide(ShiftBit, Complement(initial), data[..i])
    {
      assert data[..i + 1][..i] == data[..i];
      reg := Plus(reg, Widen(data[i]));
      ghost var start := reg;
      for j := 0 to BYTE
        invariant reg == Iterate(ShiftBit, start, j)
      {
        reg := ShiftBit(reg);
      }
    }
    assert data[..|data|] == data;
    crc := Complement(reg);
  }

  /** The production loop: one table lookup for every byte. */
  method Extend(initial: bv32, data: seq<byte>) returns (crc: bv32)
    ensures crc == Checksum(initial, data)
  {
    crc := initial;
    ComplementTwice(initial);
    for i := 0 to |data|
      invariant crc == Checksum(initial, data[..i])
    {
      assert data[..i] + [data[i]] == data[..i + 1];
      ChecksumStep(initial, data[..i], data[i]);
      crc := Plus(ShiftByte(crc), PartialResult(TableIndex(crc, data[i])));
    }
    assert data[..|data|] == data;
  }

  method Compute(data: seq<byte>) returns (crc: bv32)
    ensures crc == Checksum(INITIAL_CRC, data)
  {
    crc := Extend(INITIAL_CRC, data);
  }

  // ---- injectivity ----

  ghost predicate Injective(f: bv32 -> bv32) {
    forall a, b :: f(a) == f(b) ==> a == b
  }

  lemma {:induction false} ShiftBitNeverMerges(a: bv32, b: bv32)
    requires ShiftBit(a) == ShiftBit(b)
    ensures a == b
  {
  }

  lemma {:induction false} ShiftBitIsInjective()
    ensures Injective(ShiftBit)
  {
    forall a, b | ShiftBit(a) == ShiftBit(b)
      ensures a == b
    {
      ShiftBitNeverMerges(a, b);
    }
  }

  lemma {:induction false} IterateInjective(f: bv32 -> bv32, x: bv32, y: bv32, n: nat)
    requires Injective(f)
    requires Iterate(f, x, n) == Iterate(f, y, n)
    ensures x == y
    decreases n
  {
    if n > 0 {
      IterateInjective(f, x, y, n - 1);
    }
  }

  lemma {:induction false} DivideInjective(f: bv32 -> bv32, x: bv32, y: bv32, data: seq<byte>)
    requires Injective(f)
    requires Divide(f, x, data) == Divide(f, y, data)
    ensures x == y
    decreases |data|
  {
    if data != [] {
      var b := Widen(data[|data| - 1]);
      var x', y' := Divide(f, x, data[..|data| - 1]), Divide(f, y, data[..|data| - 1]);
      IterateInjective(f, Plus(x', b), Plus(y', b), BYTE);
      PlusCancels(x', y', b);
      DivideInjective(f, x, y, data[..|data| - 1]);
    }
  }

  lemma {:induction false} PlusCancels(x: bv32, y: bv32, z: bv32)
    ensures Plus(x, z) == Plus(y, z) ==> x == y
    ensures Plus(z, x) == Plus(z, y) ==> x == y
  {
  }

  // ---- four bytes are one word ----

  /** Four bytes as a word, the first byte lowest. */
  function Pack(b0: byte, b1: byte, b2: byte, b3: byte): bv32 {
    b0 as bv32 | (b1 as bv32 << 8) | (b2 as bv32 << 16) | (b3 as bv32 << 24)
  }

  function LittleEndian(w: bv32): (bytes: seq<byte>)
    ensures |bytes| == 4 && Pack(bytes[0], bytes[1], bytes[2], bytes[3]) == w
  {
    [(w & 0xFF) as byte, ((w >> 8) & 0xFF) as byte, ((w >> 16) & 0xFF) as byte, (w >> 24) as byte]
  }

  lemma {:induction false} PackInjective(a0: byte, a1: byte, a2: byte, a3: byte, b0: byte, b1: byte, b2: byte, b3: byte)
    requires Pack(a0, a1, a2, a3) == Pack(b0, b1, b2, b3)
    ensures a0 == b0 && a1 == b1 && a2 == b2 && a3 == b3
  {
  }

  lemma {:induction false} IterateAdd(f: bv32 -> bv32, x: bv32, m: nat, n: nat)
    ensures Iterate(f, x, m + n) == Iterate(f, Iterate(f, x, m), n)
    decreases n
  {
    if n > 0 {
      IterateAdd(f, x, m, n - 1);
    }
  }

  /** Adding a word and taking eight steps is taking in its lowest byte and keeping the rest for later. */
  lemma {:induction false} TakeLowest(reg: bv32, b0: byte, b1: byte, b2: byte, b3: byte)
    ensures Iterate(ShiftBit, Plus(reg, Pack(b0, b1, b2, b3)), BYTE) ==
            Plus(TakeIn(ShiftBit, reg, b0), Pack(b1, b2, b3, 0))
  {
    var rest := Pack(0, b1, b2, b3);
    SplitWord(reg, b0, b1, b2, b3);
    ShiftBitIsLinear();
    IterateLinear(ShiftBit, Plus(reg, Widen(b0)), rest, BYTE);
    EightBitsHigh(rest);
  }

  lemma {:induction false} SplitWord(reg: bv32, b0: byte, b1: byte, b2: byte, b3: byte)
    ensures Plus(reg, Pack(b0, b1, b2, b3)) == Plus(Plus(reg, Widen(b0)), Pack(0, b1, b2, b3))
    ensures Pack(0, b1, b2, b3) & 0xFF == 0
    ensures Pack(0, b1, b2, b3) >> 8 == Pack(b1, b2, b3, 0)
  {
    PackLowest(b0, b1, b2, b3);
    PlusAssociative(reg, Widen(b0), Pack(0, b1, b2, b3));
  }

  lemma {:induction false} PackLowest(b0: byte, b1: byte, b2: byte, b3: byte)
    ensures Pack(b0, b1, b2, b3) == Plus(Widen(b0), Pack(0, b1, b2, b3))
    ensures Pack(0, b1, b2, b3) & 0xFF == 0
    ensures Pack(0, b1, b2, b3) >> 8 == Pack(b1, b2, b3, 0)
  {
  }

  lemma {:induction false} PlusAssociative(x: bv32, y: bv32, z: bv32)
    ensures Plus(x, Plus(y, z)) == Plus(Plus(x, y), z)
  {
  }

  lemma {:induction false} PlusNothing(x: bv32)
    ensures Plus(x, Pack(0, 0, 0, 0)) == x
  {
  }

  lemma {:induction false} TakeOne(n: nat, reg: bv32, b0: byte, b1: byte, b2: byte, b3: byte)
    requires n >= BYTE
    ensures Iterate(ShiftBit, Plus(reg, Pack(b0, b1, b2, b3)), n)
         == Iterate(ShiftBit, Plus(TakeIn(ShiftBit, reg, b0), Pack(b1, b2, b3, 0)), n - BYTE)
  {
    IterateAdd(ShiftBit, Plus(reg, Pack(b0, b1, b2, b3)), BYTE, n - BYTE);
    TakeLowest(reg, b0, b1, b2, b3);
  }

  function TakeFour(f: bv32 -> bv32, reg: bv32, b0: byte, b1: byte, b2: byte, b3: byte): bv32 {
    TakeIn(f, TakeIn(f, TakeIn(f, TakeIn(f, reg, b0), b1), b2), b3)
  }

  lemma {:induction false} TakeFourIsWord(reg: bv32, b0: byte, b1: byte, b2: byte, b3: byte)
    ensures TakeFour(ShiftBit, reg, b0, b1, b2, b3) == Iterate(ShiftBit, Plus(reg, Pack(b0, b1, b2, b3)), WORD)
  {
    var r1 := TakeIn(ShiftBit, reg, b0);
    var r2 := TakeIn(ShiftBit, r1, b1);
    var r3 := TakeIn(ShiftBit, r2, b2);
    TakeOne(WORD, reg, b0, b1, b2, b3);
    TakeOne(WORD - BYTE, r1, b1, b2, b3, 0);
    TakeOne(WORD - BYTE - BYTE, r2, b2, b3, 0, 0);
    TakeOne(BYTE, r3, b3, 0, 0, 0);
    PlusNothing(TakeIn(ShiftBit, r3, b3));
  }

  lemma {:induction false} DivideNext(f: bv32 -> bv32, reg: bv32, data: seq<byte>, i: nat)
    requires i < |data|
    ensures Divide(f, reg, data[..i + 1]) == TakeIn(f, Divide(f, reg, data[..i]), data[i])
  {
    assert data[..i + 1][..i] == data[..i];
  }

  lemma {:induction false} DivideFour(f: bv32 -> bv32, reg: bv32, w: seq<byte>)
    requires |w| == 4
    ensures Divide(f, reg, w) == TakeFour(f, reg, w[0], w[1], w[2], w[3])
  {
    DivideNext(f, reg, w, 0);
    DivideNext(f, reg, w, 1);
    DivideNext(f, reg, w, 2);
    DivideNext(f, reg, w, 3);
    assert w[..4] == w && w[..0] == [];
  }

  lemma {:induction false} TakeWord(reg: bv32, w: seq<byte>)
    requires |w| == 4
    ensures Divide(ShiftBit, reg, w) == Iterate(ShiftBit, Plus(reg, Pack(w[0], w[1], w[2], w[3])), WORD)
  {
    DivideFour(ShiftBit, reg, w);
    TakeFourIsWord(reg, w[0], w[1], w[2], w[3]);
  }

  lemma {:induction false} TakeWordInjective(reg: bv32, a: seq<byte>, b: seq<byte>)
    requires |a| == |b| == 4
    requires Divide(ShiftBit, reg, a) == Divide(ShiftBit, reg, b)
    ensures a == b
  {
    var p, q := Pack(a[0], a[1], a[2], a[3]), Pack(b[0], b[1], b[2], b[3]);
    TakeWord(reg, a);
    TakeWord(reg, b);
    ShiftBitIsInjective();
    IterateInjective(ShiftBit, Plus(reg, p), Plus(reg, q), WORD);
    PlusCancels(p, q, reg);
    PackInjective(a[0], a[1], a[2], a[3], b[0], b[1], b[2], b[3]);
  }

  // ---- whole frames ----

  /** A frame is a message followed by its checksum, lowest byte first. */
  predicate Verifies(frame: seq<byte>)
    requires |frame| >= 4
  {
    var n := |frame| - 4;
    Checksum(INITIAL_CRC, frame[..n]) == Pack(frame[n], frame[n + 1], frame[n + 2], frame[n + 3])
  }

  lemma {:induction false} SealedFrameVerifies(data: seq<byte>)
    ensures Verifies(data + LittleEndian(Checksum(INITIAL_CRC, data)))
  {
    var frame := data + LittleEndian(Checksum(INITIAL_CRC, data));
    assert frame[..|data|] == data;
  }

  /** What the register holds after a frame whose checksum is right. */
  const RESIDUE: bv32 := Iterate(ShiftBit, Complement(INITIAL_CRC), WORD)

  /** Checking a frame is dividing all of it and comparing with one constant. */
  lemma {:induction false} VerifiesIsResidue(frame: seq<byte>)
    requires |frame| >= 4
    ensures Verifies(frame) <==> Divide(ShiftBit, Complement(INITIAL_CRC), frame) == RESIDUE
  {
    var n := |frame| - 4;
    var reg := Divide(ShiftBit, Complement(INITIAL_CRC), frame[..n]);
    var w := frame[n..];
    assert frame == frame[..n] + w;
    DivideAppend(ShiftBit, Complement(INITIAL_CRC), frame[..n], w);
    TakeWord(reg, w);
    ResidueMeansComplement(reg, Pack(w[0], w[1], w[2], w[3]));
  }

  lemma {:induction false} ResidueMeansComplement(reg: bv32, word: bv32)
    ensures Iterate(ShiftBit, Plus(reg, word), WORD) == RESIDUE <==> Complement(reg) == word
  {
    AllOnes(reg, word);
    if Iterate(ShiftBit, Plus(reg, word), WORD) == RESIDUE {
      ShiftBitIsInjective();
      IterateInjective(ShiftBit, Plus(reg, word), Complement(INITIAL_CRC), WORD);
    }
  }

  lemma {:induction false} AllOnes(reg: bv32, word: bv32)
    ensures Complement(reg) == word <==> Plus(reg, word) == Complement(INITIAL_CRC)
  {
    ComplementIsSum(reg);
    PlusCancels(word, Complement(reg), reg);
  }

  lemma {:induction false} ComplementIsSum(reg: bv32)
    ensures Plus(reg, Complement(reg)) == Complement(0)
  {
  }

  /** Two frames of one length which agree outside four consecutive bytes do not both verify
      unless they are the same frame. */
  lemma {:induction false} BurstDetected(sent: seq<byte>, received: seq<byte>, p: nat)
    requires |sent| == |received| && p + 4 <= |sent|
    requires sent[..p] == received[..p] && sent[p + 4..] == received[p + 4..]
    requires Verifies(sent)
    ensures Verifies(received) <==> received == sent
  {
    if Verifies(received) {
      VerifiesIsResidue(sent);
      VerifiesIsResidue(received);
      ShiftBitIsInjective();
      SameBurst(ShiftBit, Complement(INITIAL_CRC), sent, received, p);
      TakeWordInjective(Divide(ShiftBit, Complement(INITIAL_CRC), sent[..p]), sent[p..p + 4], received[p..p + 4]);
      SamePieces(sent, received, p);
    }
  }

  lemma {:induction false} SamePieces(a: seq<byte>, b: seq<byte>, p: nat)
    requires |a| == |b| && p + 4 <= |a|
    requires a[..p] == b[..p] && a[p..p + 4] == b[p..p + 4] && a[p + 4..] == b[p + 4..]
    ensures a == b
  {
    assert a == a[..p] + a[p..p + 4] + a[p + 4..];
    assert b == b[..p] + b[p..p + 4] + b[p + 4..];
  }

  lemma {:induction false} SameBurst(f: bv32 -> bv32, start: bv32, a: seq<byte>, b: seq<byte>, p: nat)
    requires Injective(f)
    requires |a| == |b| && p + 4 <= |a|
    requires a[..p] == b[..p] && a[p + 4..] == b[p + 4..]
    requires Divide(f, start, a) == Divide(f, start, b)
    ensures Divide(f, Divide(f, start, a[..p]), a[p..p + 4]) == Divide(f, Divide(f, start, a[..p]), b[p..p + 4])
  {
    SplitDivision(f, start, a, p);
    SplitDivision(f, start, b, p);
    var reg := Divide(f, start, a[..p]);
    DivideInjective(f, Divide(f, reg, a[p..p + 4]), Divide(f, reg, b[p..p + 4]), a[p + 4..]);
  }

  lemma {:induction false} SplitDivision(f: bv32 -> bv32, start: bv32, frame: seq<byte>, p: nat)
    requires p + 4 <= |frame|
    ensures Divide(f, start, frame) ==
            Divide(f, Divide(f, Divide(f, start, frame[..p]), frame[p..p + 4]), frame[p + 4..])
  {
    assert frame == frame[..p + 4] + frame[p + 4..];
    assert frame[..p + 4] == frame[..p] + frame[p..p + 4];
    DivideAppend(f, start, frame[..p + 4], frame[p + 4..]);
    DivideAppend(f, start, frame[..p], frame[p..p + 4]);
  }
}
