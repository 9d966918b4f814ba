/** The 256 partial results which let the checksum advance a byte at a time, each equal to what
    eight steps of the bit-serial division leave behind. */
module CrcTable {
  import opened Words

  const POLYNOMIAL: bv32 := 0x9960034C

  /** One step of the division: shift out the lowest bit and subtract the divisor if it was set. */
  function ShiftBit(reg: bv32): bv32 {
    if reg & 1 != 0 then (reg >> 1) ^ POLYNOMIAL else reg >> 1
  }

  function Shift8(reg: bv32): bv32 {
    ShiftBit(ShiftBit(ShiftBit(ShiftBit(ShiftBit(ShiftBit(ShiftBit(ShiftBit(reg))))))))
  }

  function Complement(a: bv32): bv32 {
    !a
  }

  function Widen(b: byte): bv32 {
    b as bv32
  }

  /** The complemented register after one byte, starting from the complement of zero. */
  function Entry(code: byte): bv32 {
    Complement(Shift8(Complement(Widen(code))))
  }

  /** The table, sixteen rows of sixteen. */
  function PartialResult(code: byte): bv32 {
    match code >> 4
    case 0x0 => Row0(code & 0xF)
    case 0x1 => Row1(code & 0xF)
    case 0x2 => Row2(code & 0xF)
    case 0x3 => Row3(code & 0xF)
    case 0x4 => Row4(code & 0xF)
    case 0x5 => Row5(code & 0xF)
    case 0x6 => Row6(code & 0xF)
    case 0x7 => Row7(code & 0xF)
    case 0x8 => Row8(code & 0xF)
    case 0x9 => Row9(code & 0xF)
    case 0xA => RowA(code & 0xF)
    case 0xB => RowB(code & 0xF)
    case 0xC => RowC(code & 0xF)
    case 0xD => RowD(code & 0xF)
    case 0xE => RowE(code & 0xF)
    case _ => RowF(code & 0xF)
  }

  function Row0(column: byte): bv32 {
    match column
    case 0x0 => 0x548843E7 case 0x1 => 0x9AD08156 case 0x2 => 0xFAF9C01C case 0x3 => 0x34A102AD
    case 0x4 => 0x3AAB4288 case 0x5 => 0xF4F38039 case 0x6 => 0x94DAC173 case 0x7 => 0x5A8203C2
    case 0x8 => 0x88CE4139 case 0x9 => 0x46968388 case 0xA => 0x26BFC2C2 case 0xB => 0xE8E70073
    case 0xC => 0xE6ED4056 case 0xD => 0x28B582E7 case 0xE => 0x489CC3AD case _ => 0x86C4011C
  }

  function Row1(column: byte): bv32 {
    match column
    case 0x0 => 0xDEC440C2 case 0x1 => 0x109C8273 case 0x2 => 0x70B5C339 case 0x3 => 0xBEED0188
    case 0x4 => 0xB0E741AD case 0x5 => 0x7EBF831C case 0x6 => 0x1E96C256 case 0x7 => 0xD0CE00E7
    case 0x8 => 0x0282421C case 0x9 => 0xCCDA80AD case 0xA => 0xACF3C1E7 case 0xB => 0x62AB0356
    case 0xC => 0x6CA14373 case 0xD => 0xA2F981C2 case 0xE => 0xC2D0C088 case _ => 0x0C880239
  }

  function Row2(column: byte): bv32 {
    match column
    case 0x0 => 0x72D04334 case 0x1 => 0xBC888185 case 0x2 => 0xDCA1C0CF case 0x3 => 0x12F9027E
    case 0x4 => 0x1CF3425B case 0x5 => 0xD2AB80EA case 0x6 => 0xB282C1A0 case 0x7 => 0x7CDA0311
    case 0x8 => 0xAE9641EA case 0x9 => 0x60CE835B case 0xA => 0x00E7C211 case 0xB => 0xCEBF00A0
    case 0xC => 0xC0B54085 case 0xD => 0x0EED8234 case 0xE => 0x6EC4C37E case _ => 0xA09C01CF
  }

  function Row3(column: byte): bv32 {
    match column
    case 0x0 => 0xF89C4011 case 0x1 => 0x36C482A0 case 0x2 => 0x56EDC3EA case 0x3 => 0x98B5015B
    case 0x4 => 0x96BF417E case 0x5 => 0x58E783CF case 0x6 => 0x38CEC285 case 0x7 => 0xF6960034
    case 0x8 => 0x24DA42CF case 0x9 => 0xEA82807E case 0xA => 0x8AABC134 case 0xB => 0x44F30385
    case 0xC => 0x4AF943A0 case 0xD => 0x84A18111 case 0xE => 0xE488C05B case _ => 0x2AD002EA
  }

  function Row4(column: byte): bv32 {
    match column
    case 0x0 => 0x18384241 case 0x1 => 0xD66080F0 case 0x2 => 0xB649C1BA case 0x3 => 0x7811030B
    case 0x4 => 0x761B432E case 0x5 => 0xB843819F case 0x6 => 0xD86AC0D5 case 0x7 => 0x16320264
    case 0x8 => 0xC47E409F case 0x9 => 0x0A26822E case 0xA => 0x6A0FC364 case 0xB => 0xA45701D5
    case 0xC => 0xAA5D41F0 case 0xD => 0x64058341 case 0xE => 0x042CC20B case _ => 0xCA7400BA
  }

  function Row5(column: byte): bv32 {
    match column
    case 0x0 => 0x92744164 case 0x1 => 0x5C2C83D5 case 0x2 => 0x3C05C29F case 0x3 => 0xF25D002E
    case 0x4 => 0xFC57400B case 0x5 => 0x320F82BA case 0x6 => 0x5226C3F0 case 0x7 => 0x9C7E0141
    case 0x8 => 0x4E3243BA case 0x9 => 0x806A810B case 0xA => 0xE043C041 case 0xB => 0x2E1B02F0
    case 0xC => 0x201142D5 case 0xD => 0xEE498064 case 0xE => 0x8E60C12E case _ => 0x4038039F
  }

  function Row6(column: byte): bv32 {
    match column
    case 0x0 => 0x3E604292 case 0x1 => 0xF0388023 case 0x2 => 0x9011C169 case 0x3 => 0x5E4903D8
    case 0x4 => 0x504343FD case 0x5 => 0x9E1B814C case 0x6 => 0xFE32C006 case 0x7 => 0x306A02B7
    case 0x8 => 0xE226404C case 0x9 => 0x2C7E82FD case 0xA => 0x4C57C3B7 case 0xB => 0x820F0106
    case 0xC => 0x8C054123 case 0xD => 0x425D8392 case 0xE => 0x2274C2D8 case _ => 0xEC2C0069
  }

  function Row7(column: byte): bv32 {
    match column
    case 0x0 => 0xB42C41B7 case 0x1 => 0x7A748306 case 0x2 => 0x1A5DC24C case 0x3 => 0xD40500FD
    case 0x4 => 0xDA0F40D8 case 0x5 => 0x14578269 case 0x6 => 0x747EC323 case 0x7 => 0xBA260192
    case 0x8 => 0x686A4369 case 0x9 => 0xA63281D8 case 0xA => 0xC61BC092 case 0xB => 0x08430223
    case 0xC => 0x06494206 case 0xD => 0xC81180B7 case 0xE => 0xA838C1FD case _ => 0x6660034C
  }

  function Row8(column: byte): bv32 {
    match column
    case 0x0 => 0xCDE840AB case 0x1 => 0x03B0821A case 0x2 => 0x6399C350 case 0x3 => 0xADC101E1
    case 0x4 => 0xA3CB41C4 case 0x5 => 0x6D938375 case 0x6 => 0x0DBAC23F case 0x7 => 0xC3E2008E
    case 0x8 => 0x11AE4275 case 0x9 => 0xDFF680C4 case 0xA => 0xBFDFC18E case 0xB => 0x7187033F
    case 0xC => 0x7F8D431A case 0xD => 0xB1D581AB case 0xE => 0xD1FCC0E1 case _ => 0x1FA40250
  }

  function Row9(column: byte): bv32 {
    match column
    case 0x0 => 0x47A4438E case 0x1 => 0x89FC813F case 0x2 => 0xE9D5C075 case 0x3 => 0x278D02C4
    case 0x4 => 0x298742E1 case 0x5 => 0xE7DF8050 case 0x6 => 0x87F6C11A case 0x7 => 0x49AE03AB
    case 0x8 => 0x9BE24150 case 0x9 => 0x55BA83E1 case 0xA => 0x3593C2AB case 0xB => 0xFBCB001A
    case 0xC => 0xF5C1403F case 0xD => 0x3B99828E case 0xE => 0x5BB0C3C4 case _ => 0x95E80175
  }

  function RowA(column: byte): bv32 {
    match column
    case 0x0 => 0xEBB04078 case 0x1 => 0x25E882C9 case 0x2 => 0x45C1C383 case 0x3 => 0x8B990132
    case 0x4 => 0x85934117 case 0x5 => 0x4BCB83A6 case 0x6 => 0x2BE2C2EC case 0x7 => 0xE5BA005D
    case 0x8 => 0x37F642A6 case 0x9 => 0xF9AE8017 case 0xA => 0x9987C15D case 0xB => 0x57DF03EC
    case 0xC => 0x59D543C9 case 0xD => 0x978D8178 case 0xE => 0xF7A4C032 case _ => 0x39FC0283
  }

  function RowB(column: byte): bv32 {
    match column
    case 0x0 => 0x61FC435D case 0x1 => 0xAFA481EC case 0x2 => 0xCF8DC0A6 case 0x3 => 0x01D50217
    case 0x4 => 0x0FDF4232 case 0x5 => 0xC1878083 case 0x6 => 0xA1AEC1C9 case 0x7 => 0x6FF60378
    case 0x8 => 0xBDBA4183 case 0x9 => 0x73E28332 case 0xA => 0x13CBC278 case 0xB => 0xDD9300C9
    case 0xC => 0xD39940EC case 0xD => 0x1DC1825D case 0xE => 0x7DE8C317 case _ => 0xB3B001A6
  }

  function RowC(column: byte): bv32 {
    match column
    case 0x0 => 0x8158410D case 0x1 => 0x4F0083BC case 0x2 => 0x2F29C2F6 case 0x3 => 0xE1710047
    case 0x4 => 0xEF7B4062 case 0x5 => 0x212382D3 case 0x6 => 0x410AC399 case 0x7 => 0x8F520128
    case 0x8 => 0x5D1E43D3 case 0x9 => 0x93468162 case 0xA => 0xF36FC028 case 0xB => 0x3D370299
    case 0xC => 0x333D42BC case 0xD => 0xFD65800D case 0xE => 0x9D4CC147 case _ => 0x531403F6
  }

  function RowD(column: byte): bv32 {
    match column
    case 0x0 => 0x0B144228 case 0x1 => 0xC54C8099 case 0x2 => 0xA565C1D3 case 0x3 => 0x6B3D0362
    case 0x4 => 0x65374347 case 0x5 => 0xAB6F81F6 case 0x6 => 0xCB46C0BC case 0x7 => 0x051E020D
    case 0x8 => 0xD75240F6 case 0x9 => 0x190A8247 case 0xA => 0x7923C30D case 0xB => 0xB77B01BC
    case 0xC => 0xB9714199 case 0xD => 0x77298328 case 0xE => 0x1700C262 case _ => 0xD95800D3
  }

  function RowE(column: byte): bv32 {
    match column
    case 0x0 => 0xA70041DE case 0x1 => 0x6958836F case 0x2 => 0x0971C225 case 0x3 => 0xC7290094
    case 0x4 => 0xC92340B1 case 0x5 => 0x077B8200 case 0x6 => 0x6752C34A case 0x7 => 0xA90A01FB
    case 0x8 => 0x7B464300 case 0x9 => 0xB51E81B1 case 0xA => 0xD537C0FB case 0xB => 0x1B6F024A
    case 0xC => 0x1565426F case 0xD => 0xDB3D80DE case 0xE => 0xBB14C194 case _ => 0x754C0325
  }

  function RowF(column: byte): bv32 {
    match column
    case 0x0 => 0x2D4C42FB case 0x1 => 0xE314804A case 0x2 => 0x833DC100 case 0x3 => 0x4D6503B1
    case 0x4 => 0x436F4394 case 0x5 => 0x8D378125 case 0x6 => 0xED1EC06F case 0x7 => 0x234602DE
    case 0x8 => 0xF10A4025 case 0x9 => 0x3F528294 case 0xA => 0x5F7BC3DE case 0xB => 0x9123016F
    case 0xC => 0x9F29414A case 0xD => 0x517183FB case 0xE => 0x3158C2B1 case _ => 0xFF000000
  }

  lemma {:induction false} PartialResultRight(code: byte)
    ensures PartialResult(code) == Entry(code)
  {
    assert code == (code & 0xF0) | (code & 0xF);
    match code >> 4
    case 0x0 => Row0Right(code & 0xF);
    case 0x1 => Row1Right(code & 0xF);
    case 0x2 => Row2Right(code & 0xF);
    case 0x3 => Row3Right(code & 0xF);
    case 0x4 => Row4Right(code & 0xF);
    case 0x5 => Row5Right(code & 0xF);
    case 0x6 => Row6Right(code & 0xF);
    case 0x7 => Row7Right(code & 0xF);
    case 0x8 => Row8Right(code & 0xF);
    case 0x9 => Row9Right(code & 0xF);
    case 0xA => RowARight(code & 0xF);
    case 0xB => RowBRight(code & 0xF);
    case 0xC => RowCRight(code & 0xF);
    case 0xD => RowDRight(code & 0xF);
    case 0xE => RowERight(code & 0xF);
    case _ => RowFRight(code & 0xF);
  }

  lemma {:induction false} Row0Right(column: byte)
    requires column < 16
    ensures Row0(column) == Entry(0x00 | column)
  {
  }

  lemma {:induction false} Row1Right(column: byte)
    requires column < 16
    ensures Row1(column) == Entry(0x10 | column)
  {
  }

  lemma {:induction false} Row2Right(column: byte)
    requires column < 16
    ensures Row2(column) == Entry(0x20 | column)
  {
  }

  lemma {:induction false} Row3Right(column: byte)
    requires column < 16
    ensures Row3(column) == Entry(0x30 | column)
  {
  }

  lemma {:induction false} Row4Right(column: byte)
    requires column < 16
    ensures Row4(column) == Entry(0x40 | column)
  {
  }

  lemma {:induction false} Row5Right(column: byte)
    requires column < 16
    ensures Row5(column) == Entry(0x50 | column)
  {
  }

  lemma {:induction false} Row6Right(column: byte)
    requires column < 16
    ensures Row6(column) == Entry(0x60 | column)
  {
  }

  lemma {:induction false} Row7Right(column: byte)
    requires column < 16
    ensures Row7(column) == Entry(0x70 | column)
  {
  }

  lemma {:induction false} Row8Right(column: byte)
    requires column < 16
    ensures Row8(column) == Entry(0x80 | column)
  {
  }

  lemma {:induction false} Row9Right(column: byte)
    requires column < 16
    ensures Row9(column) == Entry(0x90 | column)
  {
  }

  lemma {:induction false} RowARight(column: byte)
    requires column < 16
    ensures RowA(column) == Entry(0xA0 | column)
  {
  }

  lemma {:induction false} RowBRight(column: byte)
    requires column < 16
    ensures RowB(column) == Entry(0xB0 | column)
  {
  }

  lemma {:induction false} RowCRight(column: byte)
    requires column < 16
    ensures RowC(column) == Entry(0xC0 | column)
  {
  }

  lemma {:induction false} RowDRight(column: byte)
    requires column < 16
    ensures RowD(column) == Entry(0xD0 | column)
  {
  }

  lemma {:induction false} RowERight(column: byte)
    requires column < 16
    ensures RowE(column) == Entry(0xE0 | column)
  {
  }

  lemma {:induction false} RowFRight(column: byte)
    requires column < 16
    ensures RowF(column) == Entry(0xF0 | column)
  {
  }
}
