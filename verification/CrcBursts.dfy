/** Bursts which need not begin with a byte: any change within 32 consecutive bits is detected. The bits
    of a byte are taken in lowest first. */
module CrcBursts {
  import opened Words
  import opened CrcTable
  import opened Crc

  /** The lowest n bits. */
  function LowBits(n: nat): bv32
    requires n <= BYTE
  {
    match n
    case 0 => 0x00
    case 1 => 0x01
    case 2 => 0x03
    case 3 => 0x07
    case 4 => 0x0F
    case 5 => 0x1F
    case 6 => 0x3F
    case 7 => 0x7F
    case _ => 0xFF
  }

  function Right(x: bv32, n: nat): bv32
    requires n <= BYTE
  {
    match n
    case 0 => x
    case 1 => x >> 1
    case 2 => x >> 2
    case 3 => x >> 3
    case 4 => x >> 4
    case 5 => x >> 5
    case 6 => x >> 6
    case 7 => x >> 7
    case _ => x >> 8
  }

  predicate LowZero(x: bv32, n: nat)
    requires n <= BYTE
  {
    x & LowBits(n) == 0
  }

  predicate Even(x: bv32) {
    x & 1 == 0
  }

  function Half(x: bv32): bv32 {
    x >> 1
  }

  /** As long as the bits that leave the register are zero, the steps only shift. */
  lemma {:induction false} OnlyShifts(x: bv32, n: nat)
    requires n <= BYTE && LowZero(x, n)
    ensures Iterate(ShiftBit, x, n) == Right(x, n)
    decreases n
  {
    hide LowZero, Even, Half, Right;
    if n == 0 {
      NoShift(x);
    } else {
      OneMoreShift(x, n);
      OnlyShifts(x, n - 1);
      ShiftOfEven(Right(x, n - 1));
    }
  }

  lemma {:induction false} NoShift(x: bv32)
    ensures Right(x, 0) == x
  {
  }

  lemma {:induction false} ShiftOfEven(x: bv32)
    requires Even(x)
    ensures ShiftBit(x) == Half(x)
  {
  }

  lemma {:induction false} OneMoreShift(x: bv32, n: nat)
    requires 0 < n <= BYTE && LowZero(x, n)
    ensures LowZero(x, n - 1) && Even(Right(x, n - 1)) && Right(x, n) == Half(Right(x, n - 1))
  {
    hide LowZero, Even, Half, Right;
    match n
    case 1 => Bits1(x);
    case 2 => Bits2(x);
    case 3 => Bits3(x);
    case 4 => Bits4(x);
    case 5 => Bits5(x);
    case 6 => Bits6(x);
    case 7 => Bits7(x);
    case _ => Bits8(x);
  }

  lemma {:induction false} Bits1(x: bv32)
    requires LowZero(x, 1)
    ensures LowZero(x, 0) && Even(Right(x, 0)) && Right(x, 1) == Half(Right(x, 0))
  {
  }

  lemma {:induction false} Bits2(x: bv32)
    requires LowZero(x, 2)
    ensures LowZero(x, 1) && Even(Right(x, 1)) && Right(x, 2) == Half(Right(x, 1))
  {
  }

  lemma {:induction false} Bits3(x: bv32)
    requires LowZero(x, 3)
    ensures LowZero(x, 2) && Even(Right(x, 2)) && Right(x, 3) == Half(Right(x, 2))
  {
  }

  lemma {:induction false} Bits4(x: bv32)
    requires LowZero(x, 4)
    ensures LowZero(x, 3) && Even(Right(x, 3)) && Right(x, 4) == Half(Right(x, 3))
  {
  }

  lemma {:induction false} Bits5(x: bv32)
    requires LowZero(x, 5)
    ensures LowZero(x, 4) && Even(Right(x, 4)) && Right(x, 5) == Half(Right(x, 4))
  {
  }

  lemma {:induction false} Bits6(x: bv32)
    requires LowZero(x, 6)
    ensures LowZero(x, 5) && Even(Right(x, 5)) && Right(x, 6) == Half(Right(x, 5))
  {
  }

  lemma {:induction false} Bits7(x: bv32)
    requires LowZero(x, 7)
    ensures LowZero(x, 6) && Even(Right(x, 6)) && Right(x, 7) == Half(Right(x, 6))
  {
  }

  lemma {:induction false} Bits8(x: bv32)
    requires LowZero(x, 8)
    ensures LowZero(x, 7) && Even(Right(x, 7)) && Right(x, 8) == Half(Right(x, 7))
  {
  }

  /** The o lowest bits of a byte, moved to its top. */
  function Raised(low: byte, o: nat): byte
    requires o < BYTE
  {
    match o
    case 0 => 0
    case 1 => low << 7
    case 2 => low << 6
    case 3 => low << 5
    case 4 => low << 4
    case 5 => low << 3
    case 6 => low << 2
    case _ => low << 1
  }

  predicate OnlyLow(b: byte, o: nat)
    requires o < BYTE
  {
    Widen(b) & !LowBits(o) == 0
  }

  lemma {:induction false} RaisedComesBack(low: byte, o: nat)
    requires o < BYTE && OnlyLow(low, o)
    ensures LowZero(Widen(Raised(low, o)), BYTE - o)
    ensures Right(Widen(Raised(low, o)), BYTE - o) == Widen(low)
  {
  }

  lemma {:induction false} FromTheTop(b: byte)
    ensures Iterate(ShiftBit, Pack(0, 0, 0, b), WORD - BYTE) == Widen(b)
  {
    OneByteDown(0, 0, b);
    OneByteDown(0, b, 0);
    OneByteDown(b, 0, 0);
    var x := Pack(0, 0, 0, b);
    IterateAdd(ShiftBit, x, BYTE, BYTE);
    IterateAdd(ShiftBit, x, BYTE + BYTE, BYTE);
  }

  lemma {:induction false} OneByteDown(b1: byte, b2: byte, b3: byte)
    ensures Iterate(ShiftBit, Pack(0, b1, b2, b3), BYTE) == Pack(b1, b2, b3, 0)
    ensures Pack(b1, 0, 0, 0) == Widen(b1)
  {
    PackLowest(0, b1, b2, b3);
    EightBitsHigh(Pack(0, b1, b2, b3));
  }

  /** Steps from a word whose o lowest bits are zero never end in a word which is zero but for them. */
  lemma {:induction false} NothingLeft(word: bv32, low: byte, o: nat)
    requires o < BYTE && LowZero(word, o) && OnlyLow(low, o)
    requires Iterate(ShiftBit, word, WORD) == Widen(low)
    ensures word == 0 && low == 0
  {
    var top := Pack(0, 0, 0, Raised(low, o));
    IterateAdd(ShiftBit, word, o, WORD - o);
    OnlyShifts(word, o);
    RaisedComesBack(low, o);
    FromTheTop(Raised(low, o));
    IterateAdd(ShiftBit, top, WORD - BYTE, BYTE - o);
    OnlyShifts(Widen(Raised(low, o)), BYTE - o);
    ShiftBitIsInjective();
    IterateInjective(ShiftBit, Right(word, o), top, WORD - o);
    Disjoint(word, low, o);
  }

  lemma {:induction false} Disjoint(word: bv32, low: byte, o: nat)
    requires o < BYTE && LowZero(word, o) && OnlyLow(low, o)
    requires Right(word, o) == Pack(0, 0, 0, Raised(low, o))
    ensures word == 0 && low == 0
  {
  }

  /** Two runs of five bytes agree outside the 32 bits from bit o of the first byte on. */
  ghost predicate WithinWord(a: seq<byte>, b: seq<byte>, o: nat)
    requires |a| == |b| == 5 && o < BYTE
  {
    LowZero(Widen(a[0] ^ b[0]), o) && OnlyLow(a[4] ^ b[4], o)
  }

  lemma {:induction false} SumOfWords(a0: byte, a1: byte, a2: byte, a3: byte, b0: byte, b1: byte, b2: byte, b3: byte,
                                      o: nat)
    requires o < BYTE && LowZero(Widen(a0 ^ b0), o)
    ensures LowZero(Plus(Pack(a0, a1, a2, a3), Pack(b0, b1, b2, b3)), o)
  {
  }

  lemma {:induction false} SumsMeet(x: bv32, y: bv32, reg: bv32, a: bv32, b: bv32)
    requires Plus(Plus(reg, x), a) == Plus(Plus(reg, y), b)
    ensures Plus(x, y) == Plus(a, b)
  {
    hide Plus;
    PlusAssociative(reg, x, a);
    PlusAssociative(reg, y, b);
    PlusCancels(Plus(x, a), Plus(y, b), reg);
    CrossOver(x, y, a, b);
  }

  lemma {:induction false} CrossOver(x: bv32, y: bv32, a: bv32, b: bv32)
    requires Plus(x, a) == Plus(y, b)
    ensures Plus(x, y) == Plus(a, b)
  {
    hide Plus;
    AddedTwice(y, b);
    AddedAround(x, a, b);
  }

  lemma {:induction false} AddedTwice(y: bv32, b: bv32)
    ensures y == Plus(Plus(y, b), b)
  {
  }

  lemma {:induction false} AddedAround(x: bv32, a: bv32, b: bv32)
    ensures Plus(x, Plus(Plus(x, a), b)) == Plus(a, b)
  {
    hide Plus;
    PlusAssociative(x, a, b);
    Twice(x, Plus(a, b));
  }

  lemma {:induction false} Twice(x: bv32, z: bv32)
    ensures Plus(x, Plus(x, z)) == z
  {
  }

  lemma {:induction false} WidenSum(a: byte, b: byte)
    ensures Widen(a ^ b) == Plus(Widen(a), Widen(b))
  {
  }

  lemma {:induction false} NoSum(x: bv32, y: bv32, a: byte, b: byte)
    ensures Plus(x, y) == 0 ==> x == y
    ensures a ^ b == 0 ==> a == b
  {
  }

  lemma {:induction false} FiveBytesInjective(reg: bv32, a: seq<byte>, b: seq<byte>, o: nat)
    requires |a| == |b| == 5 && o < BYTE && WithinWord(a, b, o)
    requires Divide(ShiftBit, reg, a) == Divide(ShiftBit, reg, b)
    ensures a == b
  {
    hide Divide, Iterate, Pack, LowZero, OnlyLow;
    var wa, wb := a[..4], b[..4];
    var ra, rb := Divide(ShiftBit, reg, wa), Divide(ShiftBit, reg, wb);
    var p, q := Pack(a[0], a[1], a[2], a[3]), Pack(b[0], b[1], b[2], b[3]);
    DivideNext(ShiftBit, reg, a, 4);
    DivideNext(ShiftBit, reg, b, 4);
    assert a[..5] == a && b[..5] == b;
    TakeWord(reg, wa);
    TakeWord(reg, wb);
    ShiftBitIsInjective();
    ShiftBitIsLinear();
    IterateInjective(ShiftBit, Plus(ra, Widen(a[4])), Plus(rb, Widen(b[4])), BYTE);
    IterateLinear(ShiftBit, reg, p, WORD);
    IterateLinear(ShiftBit, reg, q, WORD);
    IterateLinear(ShiftBit, p, q, WORD);
    SumsMeet(Iterate(ShiftBit, p, WORD), Iterate(ShiftBit, q, WORD), Iterate(ShiftBit, reg, WORD),
             Widen(a[4]), Widen(b[4]));
    WidenSum(a[4], b[4]);
    SumOfWords(a[0], a[1], a[2], a[3], b[0], b[1], b[2], b[3], o);
    NothingLeft(Plus(p, q), a[4] ^ b[4], o);
    NoSum(p, q, a[4], b[4]);
    PackInjective(a[0], a[1], a[2], a[3], b[0], b[1], b[2], b[3]);
    SameBytes(a, b);
  }

  lemma {:induction false} SameBytes(a: seq<byte>, b: seq<byte>)
    requires |a| == |b| == 5 && a[0] == b[0] && a[1] == b[1] && a[2] == b[2] && a[3] == b[3] && a[4] == b[4]
    ensures a == b
  {
  }

  /** Two frames of one length which agree outside 32 consecutive bits, from bit o of byte p on, do not both
      verify unless they are the same frame. */
  lemma {:induction false} BitBurstDetected(sent: seq<byte>, received: seq<byte>, p: nat, o: nat)
    requires |sent| == |received| && p + 5 <= |sent| && o < BYTE
    requires sent[..p] == received[..p] && sent[p + 5..] == received[p + 5..]
    requires WithinWord(sent[p..p + 5], received[p..p + 5], o)
    requires Verifies(sent)
    ensures Verifies(received) <==> received == sent
  {
    if Verifies(received) {
      hide Divide, Verifies, WithinWord, ShiftBit, Complement;
      VerifiesIsResidue(sent);
      VerifiesIsResidue(received);
      ShiftBitIsInjective();
      SameFive(ShiftBit, Complement(INITIAL_CRC), sent, received, p);
      FiveBytesInjective(Divide(ShiftBit, Complement(INITIAL_CRC), sent[..p]), sent[p..p + 5], received[p..p + 5], o);
      InThree(sent, p);
      InThree(received, p);
    }
  }

  lemma {:induction false} SameFive(f: bv32 -> bv32, start: bv32, a: seq<byte>, b: seq<byte>, p: nat)
    requires Injective(f)
    requires |a| == |b| && p + 5 <= |a|
    requires a[..p] == b[..p] && a[p + 5..] == b[p + 5..]
    requires Divide(f, start, a) == Divide(f, start, b)
    ensures Divide(f, Divide(f, start, a[..p]), a[p..p + 5]) == Divide(f, Divide(f, start, a[..p]), b[p..p + 5])
  {
    hide Divide;
    SplitAtFive(f, start, a, p);
    SplitAtFive(f, start, b, p);
    var reg := Divide(f, start, a[..p]);
    DivideInjective(f, Divide(f, reg, a[p..p + 5]), Divide(f, reg, b[p..p + 5]), a[p + 5..]);
  }

  lemma {:induction false} InThree(frame: seq<byte>, p: nat)
    requires p + 5 <= |frame|
    ensures frame == frame[..p] + frame[p..p + 5] + frame[p + 5..]
  {
  }

  lemma {:induction false} SplitAtFive(f: bv32 -> bv32, start: bv32, frame: seq<byte>, p: nat)
    requires p + 5 <= |frame|
    ensures Divide(f, start, frame) ==
            Divide(f, Divide(f, Divide(f, start, frame[..p]), frame[p..p + 5]), frame[p + 5..])
  {
    var rest := frame[p..];
    assert frame == frame[..p] + rest;
    DivideAppend(f, start, frame[..p], rest);
    assert rest[..5] == frame[p..p + 5] && rest[5..] == frame[p + 5..];
    assert rest == rest[..5] + rest[5..];
    DivideAppend(f, Divide(f, start, frame[..p]), rest[..5], rest[5..]);
  }
}
