/** The table-driven checksum of program specific information (format/ts/tsio/checksum.go) and the bit-by-bit
    register of Annex A of ISO/IEC 13818-1 that it stands for. */
module Checksum {
  function Pick8(k: bv8, x0: bv32, x1: bv32, x2: bv32, x3: bv32, x4: bv32, x5: bv32, x6: bv32, x7: bv32): bv32 {
    match k
    case 0 => x0
    case 1 => x1
    case 2 => x2
    case 3 => x3
    case 4 => x4
    case 5 => x5
    case 6 => x6
    case _ => x7
  }

  /** One of sixteen values. */
  function Pick(k: bv8, x0: bv32, x1: bv32, x2: bv32, x3: bv32, x4: bv32, x5: bv32, x6: bv32, x7: bv32,
      x8: bv32, x9: bv32, xA: bv32, xB: bv32, xC: bv32, xD: bv32, xE: bv32, xF: bv32): bv32
  {
    if k < 8 then Pick8(k, x0, x1, x2, x3, x4, x5, x6, x7) else Pick8(k - 8, x8, x9, xA, xB, xC, xD, xE, xF)
  }

  /** The table, sixteen entries a row. */
  function Row(high: bv8, low: bv8): bv32 {
    match high
    case 0 => Pick(low,
      0x00000000, 0xB71DC104, 0x6E3B8209, 0xD926430D, 0xDC760413, 0x6B6BC517, 0xB24D861A, 0x0550471E,
      0xB8ED0826, 0x0FF0C922, 0xD6D68A2F, 0x61CB4B2B, 0x649B0C35, 0xD386CD31, 0x0AA08E3C, 0xBDBD4F38)
    case 1 => Pick(low,
      0x70DB114C, 0xC7C6D048, 0x1EE09345, 0xA9FD5241, 0xACAD155F, 0x1BB0D45B, 0xC2969756, 0x758B5652,
      0xC836196A, 0x7F2BD86E, 0xA60D9B63, 0x11105A67, 0x14401D79, 0xA35DDC7D, 0x7A7B9F70, 0xCD665E74)
    case 2 => Pick(low,
      0xE0B62398, 0x57ABE29C, 0x8E8DA191, 0x39906095, 0x3CC0278B, 0x8BDDE68F, 0x52FBA582, 0xE5E66486,
      0x585B2BBE, 0xEF46EABA, 0x3660A9B7, 0x817D68B3, 0x842D2FAD, 0x3330EEA9, 0xEA16ADA4, 0x5D0B6CA0)
    case 3 => Pick(low,
      0x906D32D4, 0x2770F3D0, 0xFE56B0DD, 0x494B71D9, 0x4C1B36C7, 0xFB06F7C3, 0x2220B4CE, 0x953D75CA,
      0x28803AF2, 0x9F9DFBF6, 0x46BBB8FB, 0xF1A679FF, 0xF4F63EE1, 0x43EBFFE5, 0x9ACDBCE8, 0x2DD07DEC)
    case 4 => Pick(low,
      0x77708634, 0xC06D4730, 0x194B043D, 0xAE56C539, 0xAB068227, 0x1C1B4323, 0xC53D002E, 0x7220C12A,
      0xCF9D8E12, 0x78804F16, 0xA1A60C1B, 0x16BBCD1F, 0x13EB8A01, 0xA4F64B05, 0x7DD00808, 0xCACDC90C)
    case 5 => Pick(low,
      0x07AB9778, 0xB0B6567C, 0x69901571, 0xDE8DD475, 0xDBDD936B, 0x6CC0526F, 0xB5E61162, 0x02FBD066,
      0xBF469F5E, 0x085B5E5A, 0xD17D1D57, 0x6660DC53, 0x63309B4D, 0xD42D5A49, 0x0D0B1944, 0xBA16D840)
    case 6 => Pick(low,
      0x97C6A5AC, 0x20DB64A8, 0xF9FD27A5, 0x4EE0E6A1, 0x4BB0A1BF, 0xFCAD60BB, 0x258B23B6, 0x9296E2B2,
      0x2F2BAD8A, 0x98366C8E, 0x41102F83, 0xF60DEE87, 0xF35DA999, 0x4440689D, 0x9D662B90, 0x2A7BEA94)
    case 7 => Pick(low,
      0xE71DB4E0, 0x500075E4, 0x892636E9, 0x3E3BF7ED, 0x3B6BB0F3, 0x8C7671F7, 0x555032FA, 0xE24DF3FE,
      0x5FF0BCC6, 0xE8ED7DC2, 0x31CB3ECF, 0x86D6FFCB, 0x8386B8D5, 0x349B79D1, 0xEDBD3ADC, 0x5AA0FBD8)
    case 8 => Pick(low,
      0xEEE00C69, 0x59FDCD6D, 0x80DB8E60, 0x37C64F64, 0x3296087A, 0x858BC97E, 0x5CAD8A73, 0xEBB04B77,
      0x560D044F, 0xE110C54B, 0x38368646, 0x8F2B4742, 0x8A7B005C, 0x3D66C158, 0xE4408255, 0x535D4351)
    case 9 => Pick(low,
      0x9E3B1D25, 0x2926DC21, 0xF0009F2C, 0x471D5E28, 0x424D1936, 0xF550D832, 0x2C769B3F, 0x9B6B5A3B,
      0x26D61503, 0x91CBD407, 0x48ED970A, 0xFFF0560E, 0xFAA01110, 0x4DBDD014, 0x949B9319, 0x2386521D)
    case 10 => Pick(low,
      0x0E562FF1, 0xB94BEEF5, 0x606DADF8, 0xD7706CFC, 0xD2202BE2, 0x653DEAE6, 0xBC1BA9EB, 0x0B0668EF,
      0xB6BB27D7, 0x01A6E6D3, 0xD880A5DE, 0x6F9D64DA, 0x6ACD23C4, 0xDDD0E2C0, 0x04F6A1CD, 0xB3EB60C9)
    case 11 => Pick(low,
      0x7E8D3EBD, 0xC990FFB9, 0x10B6BCB4, 0xA7AB7DB0, 0xA2FB3AAE, 0x15E6FBAA, 0xCCC0B8A7, 0x7BDD79A3,
      0xC660369B, 0x717DF79F, 0xA85BB492, 0x1F467596, 0x1A163288, 0xAD0BF38C, 0x742DB081, 0xC3307185)
    case 12 => Pick(low,
      0x99908A5D, 0x2E8D4B59, 0xF7AB0854, 0x40B6C950, 0x45E68E4E, 0xF2FB4F4A, 0x2BDD0C47, 0x9CC0CD43,
      0x217D827B, 0x9660437F, 0x4F460072, 0xF85BC176, 0xFD0B8668, 0x4A16476C, 0x93300461, 0x242DC565)
    case 13 => Pick(low,
      0xE94B9B11, 0x5E565A15, 0x87701918, 0x306DD81C, 0x353D9F02, 0x82205E06, 0x5B061D0B, 0xEC1BDC0F,
      0x51A69337, 0xE6BB5233, 0x3F9D113E, 0x8880D03A, 0x8DD09724, 0x3ACD5620, 0xE3EB152D, 0x54F6D429)
    case 14 => Pick(low,
      0x7926A9C5, 0xCE3B68C1, 0x171D2BCC, 0xA000EAC8, 0xA550ADD6, 0x124D6CD2, 0xCB6B2FDF, 0x7C76EEDB,
      0xC1CBA1E3, 0x76D660E7, 0xAFF023EA, 0x18EDE2EE, 0x1DBDA5F0, 0xAAA064F4, 0x738627F9, 0xC49BE6FD)
    case _ => Pick(low,
      0x09FDB889, 0xBEE0798D, 0x67C63A80, 0xD0DBFB84, 0xD58BBC9A, 0x62967D9E, 0xBBB03E93, 0x0CADFF97,
      0xB110B0AF, 0x060D71AB, 0xDF2B32A6, 0x6836F3A2, 0x6D66B4BC, 0xDA7B75B8, 0x035D36B5, 0xB440F7B1)
  }

  function Entry(i: bv8): bv32 { Row(i >> 4, i & 0x0f) }

  /** The low byte of the register. */
  function Low(crc: bv32): bv8 { (crc & 0xff) as bv8 }

  function Index(crc: bv32, b: bv8): bv8 { b ^ Low(crc) }

  /** Addition of polynomials over bits. */
  function Add(x: bv32, y: bv32): bv32 { x ^ y }

  function Right8(c: bv32): bv32 { c >> 8 }

  /** One table look-up. */
  function Step(crc: bv32, b: bv8): bv32 {
    Add(Entry(Index(crc, b)), Right8(crc))
  }

  function Crc(crc: bv32, data: seq<bv8>): bv32
    decreases |data|
  {
    if data == [] then crc else Crc(Step(crc, data[0]), data[1..])
  }

  method CalcCRC32(first: bv32, data: seq<bv8>) returns (crc: bv32)
    ensures crc == Crc(first, data)
  {
    hide Crc, Step, Entry, Low;
    crc := first;
    AllIsLeft(first, data);
    for i := 0 to |data|
      invariant Crc(crc, data[i..]) == Crc(first, data)
    {
      CrcNext(crc, data, i);
      StepIs(crc, data[i]);
      crc := Entry(data[i] ^ Low(crc)) ^ (crc >> 8);
    }
    NothingIsLeft(crc, data);
  }

  lemma AllIsLeft(crc: bv32, data: seq<bv8>)
    ensures Crc(crc, data[0..]) == Crc(crc, data)
  {
    hide Step;
    assert data[0..] == data;
  }

  lemma NothingIsLeft(crc: bv32, data: seq<bv8>)
    ensures Crc(crc, data[|data|..]) == crc
  {
    hide Step;
  }

  lemma StepIs(crc: bv32, b: bv8)
    ensures Step(crc, b) == Entry(b ^ Low(crc)) ^ (crc >> 8)
  {
    hide Entry, Low;
  }

  lemma CrcNext(crc: bv32, data: seq<bv8>, i: nat)
    requires i < |data|
    ensures Crc(crc, data[i..]) == Crc(Step(crc, data[i]), data[i + 1..])
  {
    hide Step;
    assert data[i..][0] == data[i] && data[i..][1..] == data[i + 1..];
  }

  /** Multiplication by powers of the variable. */
  function Left(c: bv32): bv32 { c << 1 }

  function Left4(c: bv32): bv32 { Left(Left(Left(Left(c)))) }

  function Left8(c: bv32): bv32 { Left4(Left4(c)) }

  /** The polynomial, when a one is about to be shifted out. */
  function Tap(c: bv32): bv32 {
    if c & 0x8000_0000 != 0 then 0x04C1_1DB7 else 0
  }

  /** One clock of the register: the polynomial is taken off when a one is shifted out. */
  function Clock(c: bv32): bv32 { Add(Left(c), Tap(c)) }

  function Clock4(c: bv32): bv32 { Clock(Clock(Clock(Clock(c)))) }

  function Clock8(c: bv32): bv32 { Clock4(Clock4(c)) }

  function Top(b: bv8): bv32 { (b as bv32) << 24 }

  /** The register after a byte, most significant bit first. */
  function Register(c: bv32, data: seq<bv8>): bv32
    decreases |data|
  {
    if data == [] then c else Register(Clock8(Add(c, Top(data[0]))), data[1..])
  }

  /** The bytes of a word in the opposite order. */
  function Swap(c: bv32): bv32 {
    ((c & 0xff) << 24) | ((c & 0xff00) << 8) | ((c >> 8) & 0xff00) | (c >> 24)
  }

  /** What a table entry stands for: eight clocks of the register over a byte. */
  function Clocked(i: bv8): bv32 { Swap(Clock8(Top(i))) }

  lemma TapAdds(x: bv32, y: bv32)
    ensures Tap(Add(x, y)) == Add(Tap(x), Tap(y))
  {
    hide Add;
    TopBitAdds(x, y);
    Polynomials();
  }

  predicate TopBitSet(c: bv32) { c & 0x8000_0000 != 0 }

  lemma TopBitAdds(x: bv32, y: bv32)
    ensures TopBitSet(Add(x, y)) <==> TopBitSet(x) != TopBitSet(y)
  {
  }

  lemma Polynomials()
    ensures Add(0x04C1_1DB7, 0x04C1_1DB7) == 0 && Add(0, 0) == 0
    ensures Add(0x04C1_1DB7, 0) == 0x04C1_1DB7 && Add(0, 0x04C1_1DB7) == 0x04C1_1DB7
  {
  }

  lemma ClockAdds(x: bv32, y: bv32)
    ensures Clock(Add(x, y)) == Add(Clock(x), Clock(y))
  {
    hide Add, Left, Tap;
    LeftApart(x, y);
    TapAdds(x, y);
    AddPairs(Left(x), Left(y), Tap(x), Tap(y));
  }

  lemma AddPairs(x: bv32, y: bv32, z: bv32, w: bv32)
    ensures Add(Add(x, y), Add(z, w)) == Add(Add(x, z), Add(y, w))
  {
    hide Add;
    AddAssociates(Add(x, y), z, w);
    AddSwap(x, y, z);
    AddAssociates(Add(x, z), y, w);
  }

  lemma Clock4Adds(x: bv32, y: bv32)
    ensures Clock4(Add(x, y)) == Add(Clock4(x), Clock4(y))
  {
    hide Add, Clock;
    ClockAdds(x, y);
    ClockAdds(Clock(x), Clock(y));
    ClockAdds(Clock(Clock(x)), Clock(Clock(y)));
    ClockAdds(Clock(Clock(Clock(x))), Clock(Clock(Clock(y))));
  }

  lemma SwapAdds(x: bv32, y: bv32)
    ensures Swap(Add(x, y)) == Add(Swap(x), Swap(y))
  {
  }

  /** Clocking adds up, so it is enough to know it for the parts of a byte. */
  lemma ClockedAdds(x: bv8, y: bv8)
    ensures Clocked(x ^ y) == Add(Clocked(x), Clocked(y))
  {
    hide Add, Clock4, Swap, Top;
    TopAdds(x, y);
    Clock4Adds(Top(x), Top(y));
    Clock4Adds(Clock4(Top(x)), Clock4(Top(y)));
    SwapAdds(Clock8(Top(x)), Clock8(Top(y)));
  }

  /** The first entry of each row. */
  function First(high: bv8): bv32 {
    match high
    case 0 => 0x00000000
    case 1 => 0x70DB114C
    case 2 => 0xE0B62398
    case 3 => 0x906D32D4
    case 4 => 0x77708634
    case 5 => 0x07AB9778
    case 6 => 0x97C6A5AC
    case 7 => 0xE71DB4E0
    case 8 => 0xEEE00C69
    case 9 => 0x9E3B1D25
    case 10 => 0x0E562FF1
    case 11 => 0x7E8D3EBD
    case 12 => 0x99908A5D
    case 13 => 0xE94B9B11
    case 14 => 0x7926A9C5
    case _ => 0x09FDB889
  }

  /** The first row with h added throughout. */
  function FirstRowWith(low: bv8, h: bv32): bv32 {
    Pick(low,
      Add(0x00000000, h), Add(0xB71DC104, h), Add(0x6E3B8209, h), Add(0xD926430D, h),
      Add(0xDC760413, h), Add(0x6B6BC517, h), Add(0xB24D861A, h), Add(0x0550471E, h),
      Add(0xB8ED0826, h), Add(0x0FF0C922, h), Add(0xD6D68A2F, h), Add(0x61CB4B2B, h),
      Add(0x649B0C35, h), Add(0xD386CD31, h), Add(0x0AA08E3C, h), Add(0xBDBD4F38, h))
  }

  /** Every row is the first one with its own first entry added. */
  lemma RowIsFirstWith(high: bv8, low: bv8)
    ensures Row(high, low) == FirstRowWith(low, First(high))
  {
    hide Pick;
  }

  lemma FirstRowAdds(low: bv8, h: bv32)
    ensures FirstRowWith(low, h) == Add(Row(0, low), h)
  {
    hide Add;
  }

  lemma FirstRowIsClocked(low: bv8)
    requires low < 16
    ensures Row(0, low) == Clocked(low)
  {
  }

  lemma FirstAdds(high: bv8)
    requires high < 16
    ensures First(high) == Add(First(high & 12), First(high & 3))
  {
  }

  lemma FirstFourAreClocked(high: bv8)
    requires high < 4
    ensures First(high) == Clocked(high << 4)
  {
  }

  lemma EachFourthIsClocked(high: bv8)
    requires high == 0 || high == 4 || high == 8 || high == 12
    ensures First(high) == Clocked(high << 4)
  {
    hide First, Clocked;
    FourthsAreClocked();
  }

  lemma FourthsAreClocked()
    ensures First(0) == Clocked(0) && First(4) == Clocked(0x40) && First(8) == Clocked(0x80) && First(12) == Clocked(0xC0)
  {
  }

  lemma FirstIsClocked(high: bv8)
    requires high < 16
    ensures First(high) == Clocked(high << 4)
  {
    hide First, Clocked, Add;
    Quarters(high);
    FirstAdds(high);
    EachFourthIsClocked(high & 12);
    FirstFourAreClocked(high & 3);
    ClockedAdds((high & 12) << 4, (high & 3) << 4);
  }

  lemma Quarters(high: bv8)
    requires high < 16
    ensures (high & 12 == 0 || high & 12 == 4 || high & 12 == 8 || high & 12 == 12) && high & 3 < 4
    ensures ((high & 12) << 4) ^ ((high & 3) << 4) == high << 4
  {
  }

  lemma Halves(i: bv8)
    ensures i >> 4 < 16 && i & 0x0f < 16 && ((i >> 4) << 4) ^ (i & 0x0f) == i
  {
  }

  lemma TableIsClocked(i: bv8)
    ensures Entry(i) == Swap(Clock8(Top(i)))
  {
    hide Row, First, FirstRowWith, Add, Clock8, Swap, Top;
    var high, low := i >> 4, i & 0x0f;
    Halves(i);
    RowIsFirstWith(high, low);
    FirstRowAdds(low, First(high));
    AddCommutes(Row(0, low), First(high));
    FirstIsClocked(high);
    FirstRowIsClocked(low);
    ClockedAdds(high << 4, low);
  }

  lemma AddSwap(x: bv32, y: bv32, z: bv32)
    ensures Add(Add(x, y), z) == Add(Add(x, z), y)
  {
    hide Add;
    AddAssociates(x, y, z);
    AddAssociates(x, z, y);
    AddCommutes(y, z);
  }

  lemma AddAssociates(x: bv32, y: bv32, z: bv32)
    ensures Add(Add(x, y), z) == Add(x, Add(y, z))
  {
  }

  lemma LeftApart(x: bv32, y: bv32)
    ensures Left(Add(x, y)) == Add(Left(x), Left(y))
  {
  }

  predicate NoTop(y: bv32) { y & 0x8000_0000 == 0 }

  lemma TapApart(x: bv32, y: bv32)
    requires NoTop(y)
    ensures Tap(Add(x, y)) == Tap(x)
  {
    TopBit(x, y);
  }

  lemma TopBit(x: bv32, y: bv32)
    requires y & 0x8000_0000 == 0
    ensures (x ^ y) & 0x8000_0000 == x & 0x8000_0000
  {
  }

  lemma ClockApart(x: bv32, y: bv32)
    requires NoTop(y)
    ensures Clock(Add(x, y)) == Add(Clock(x), Left(y))
  {
    hide Add, Left, Tap, NoTop;
    LeftApart(x, y);
    TapApart(x, y);
    AddSwap(Left(x), Left(y), Tap(x));
  }

  predicate NoTop4(y: bv32) { NoTop(y) && NoTop(Left(y)) && NoTop(Left(Left(y))) && NoTop(Left(Left(Left(y)))) }

  lemma Clock4Apart(x: bv32, y: bv32)
    requires NoTop4(y)
    ensures Clock4(Add(x, y)) == Add(Clock4(x), Left4(y))
  {
    hide Clock, Add, Left, NoTop;
    ClockApart(x, y);
    ClockApart(Clock(x), Left(y));
    ClockApart(Clock(Clock(x)), Left(Left(y)));
    ClockApart(Clock(Clock(Clock(x))), Left(Left(Left(y))));
  }

  /** What lies below the top byte is only moved by eight clocks. */
  lemma Clock8Apart(x: bv32, y: bv32)
    requires NoTop4(y) && NoTop4(Left4(y))
    ensures Clock8(Add(x, y)) == Add(Clock8(x), Left8(y))
  {
    hide Clock4, Add, Left4, NoTop4;
    Clock4Apart(x, y);
    Clock4Apart(Clock4(x), Left4(y));
  }

  /** All but the top byte of a word. */
  function Body(c: bv32): bv32 { c & 0xff_ffff }

  lemma BodyIsLow(c: bv32)
    ensures NoTop4(Body(c)) && NoTop4(Left4(Body(c)))
  {
  }

  lemma StepIsClocked(c: bv32, b: bv8)
    ensures Step(Swap(c), b) == Swap(Clock8(Add(c, Top(b))))
  {
    hide *;
    var i := Index(Swap(c), b);
    TableIsClocked(i);
    BodyIsLow(c);
    Clock8Apart(Top(i), Body(c));
    TopApart(c, b);
    SwapApart(Clock8(Top(i)), c);
    StepIsLookup(Swap(c), b);
  }

  lemma StepIsLookup(crc: bv32, b: bv8)
    ensures Step(crc, b) == Add(Entry(Index(crc, b)), Right8(crc))
  {
    hide Add, Entry, Index, Right8;
  }

  function High(c: bv32): bv8 { (c >> 24) as bv8 }

  lemma LowOfSwap(c: bv32)
    ensures Low(Swap(c)) == High(c)
  {
  }

  lemma TopAdds(x: bv8, y: bv8)
    ensures Top(x ^ y) == Add(Top(x), Top(y))
  {
  }

  lemma HighAndBody(c: bv32)
    ensures c == Add(Top(High(c)), Body(c))
  {
  }

  lemma TopApart(c: bv32, b: bv8)
    ensures Add(c, Top(b)) == Add(Top(Index(Swap(c), b)), Body(c))
  {
    hide Add, Top, Body, High, Low, Swap;
    LowOfSwap(c);
    TopAdds(b, High(c));
    HighAndBody(c);
    AddSwap(Top(High(c)), Body(c), Top(b));
    AddCommutes(Top(b), Top(High(c)));
  }

  lemma AddCommutes(x: bv32, y: bv32)
    ensures Add(x, y) == Add(y, x)
  {
  }

  lemma SwapApart(x: bv32, c: bv32)
    ensures Swap(Add(x, Left8(Body(c)))) == Add(Swap(x), Right8(Swap(c)))
  {
  }

  /** The table works on the register with its bytes in the opposite order, and computes nothing else. */
  lemma {:induction false} TableComputesRegister(c: bv32, data: seq<bv8>)
    ensures Crc(Swap(c), data) == Swap(Register(c, data))
    decreases |data|
  {
    hide Clock8, Step, Swap, Top;
    if data != [] {
      StepIsClocked(c, data[0]);
      TableComputesRegister(Clock8(Add(c, Top(data[0]))), data[1..]);
    }
  }

  lemma {:induction false} CrcAppend(crc: bv32, a: seq<bv8>, b: seq<bv8>)
    ensures Crc(crc, a + b) == Crc(Crc(crc, a), b)
    decreases |a|
  {
    hide Step;
    if a == [] {
      assert a + b == b;
    } else {
      assert (a + b)[1..] == a[1..] + b;
      CrcAppend(Step(crc, a[0]), a[1..], b);
    }
  }

  /** The bytes of a checksum, least significant first. */
  function Bytes4(c: bv32): seq<bv8> {
    [Low(c), Low(c >> 8), Low(c >> 16), Low(c >> 24)]
  }

  lemma ZeroEntry()
    ensures Entry(0) == 0
  {
  }

  lemma OwnByte(c: bv32)
    ensures Step(c, Low(c)) == Right8(c)
  {
    hide Entry, Right8;
    assert Low(c) ^ Low(c) == 0;
    ZeroEntry();
    AddZero(Right8(c));
    AddCommutes(Right8(c), 0);
  }

  lemma BytesAre(c: bv32)
    ensures Bytes4(c) == [Low(c), Low(Right8(c)), Low(Right8(Right8(c))), Low(Right8(Right8(Right8(c))))]
    ensures Right8(Right8(Right8(Right8(c)))) == 0
  {
  }

  /** Data followed by its own checksum leaves zero, whatever the register began with. */
  lemma ChecksItself(first: bv32, data: seq<bv8>)
    ensures Crc(first, data + Bytes4(Crc(first, data))) == 0
  {
    hide Step, Low, Bytes4, Right8, Crc;
    var c := Crc(first, data);
    CrcAppend(first, data, Bytes4(c));
    BytesAre(c);
    OwnByte(c);
    OwnByte(Right8(c));
    OwnByte(Right8(Right8(c)));
    OwnByte(Right8(Right8(Right8(c))));
    FourSteps(c, Low(c), Low(Right8(c)), Low(Right8(Right8(c))), Low(Right8(Right8(Right8(c)))));
  }

  lemma CrcFirst(c: bv32, x: bv8, rest: seq<bv8>)
    ensures Crc(c, [x] + rest) == Crc(Step(c, x), rest)
    ensures rest == [] ==> Crc(Step(c, x), rest) == Step(c, x)
  {
    hide Step;
    assert ([x] + rest)[1..] == rest;
  }

  lemma FourSteps(c: bv32, x: bv8, y: bv8, z: bv8, w: bv8)
    ensures Crc(c, [x, y, z, w]) == Step(Step(Step(Step(c, x), y), z), w)
  {
    hide Step, Crc;
    CrcFirst(c, x, [y, z, w]);
    CrcFirst(Step(c, x), y, [z, w]);
    CrcFirst(Step(Step(c, x), y), z, [w]);
    CrcFirst(Step(Step(Step(c, x), y), z), w, []);
    assert [x, y, z, w] == [x] + [y, z, w] && [y, z, w] == [y] + [z, w] && [z, w] == [z] + [w] && [w] == [w] + [];
  }

  /** No two registers meet: the lowest bit after a clock tells what was shifted out. */
  lemma ClockInjective(x: bv32, y: bv32)
    requires Clock(x) == Clock(y)
    ensures x == y
  {
    hide Add, Left, Tap;
    TapTells(x);
    TapTells(y);
    LeftTells(x, y, Tap(x));
  }

  predicate Shifted(c: bv32) { c & 0x8000_0000 != 0 }

  lemma TapTells(x: bv32)
    ensures Tap(x) == (if Shifted(x) then 0x04C1_1DB7 else 0) && (Shifted(x) <==> Clock(x) & 1 == 1)
  {
    LowBit(x);
  }

  lemma LowBit(x: bv32)
    ensures ((x << 1) ^ 0x04C1_1DB7) & 1 == 1 && ((x << 1) ^ 0) & 1 == 0
  {
  }

  lemma LeftTells(x: bv32, y: bv32, t: bv32)
    requires Add(Left(x), t) == Add(Left(y), t) && (Shifted(x) <==> Shifted(y))
    ensures x == y
  {
  }

  lemma Clock8Injective(x: bv32, y: bv32)
    requires Clock8(x) == Clock8(y)
    ensures x == y
  {
    hide Clock;
    Clock4Injective(Clock4(x), Clock4(y));
    Clock4Injective(x, y);
  }

  lemma Clock4Injective(x: bv32, y: bv32)
    requires Clock4(x) == Clock4(y)
    ensures x == y
  {
    hide Clock;
    ClockInjective(Clock(Clock(Clock(x))), Clock(Clock(Clock(y))));
    ClockInjective(Clock(Clock(x)), Clock(Clock(y)));
    ClockInjective(Clock(x), Clock(y));
    ClockInjective(x, y);
  }

  lemma AddCancels(x: bv32, y: bv32, z: bv32)
    requires Add(x, z) == Add(y, z)
    ensures x == y
  {
    hide Add;
    AddAssociates(x, z, z);
    AddAssociates(y, z, z);
    AddSelf(x, z);
    AddSelf(y, z);
  }

  lemma AddSelf(x: bv32, z: bv32)
    ensures Add(x, Add(z, z)) == x
  {
  }

  lemma {:induction false} RegisterInjective(c: bv32, d: bv32, data: seq<bv8>)
    requires Register(c, data) == Register(d, data)
    ensures c == d
    decreases |data|
  {
    hide Clock8, Add, Top;
    if data != [] {
      RegisterInjective(Clock8(Add(c, Top(data[0]))), Clock8(Add(d, Top(data[0]))), data[1..]);
      Clock8Injective(Add(c, Top(data[0])), Add(d, Top(data[0])));
      AddCancels(c, d, Top(data[0]));
    }
  }

  /** Up to four bytes in a word, first byte on top. */
  function Pack(x: seq<bv8>): bv32
    requires |x| <= 4
  {
    if x == [] then 0 else Add(Top(x[0]), Right8(Pack(x[1..])))
  }

  function Clocks(c: bv32, n: nat): bv32
    decreases n
  {
    if n == 0 then c else Clocks(Clock8(c), n - 1)
  }

  /** The bits a packed word of n bytes leaves free. */
  predicate Fits(c: bv32, n: nat) {
    match n
    case 0 => c == 0
    case 1 => c & 0x00ff_ffff == 0
    case 2 => c & 0x0000_ffff == 0
    case 3 => c & 0x0000_00ff == 0
    case _ => true
  }

  lemma FitsNext(b: bv8, c: bv32, n: nat)
    requires n <= 3 && Fits(c, n)
    ensures Fits(Add(Top(b), Right8(c)), n + 1)
  {
    hide Add, Top, Right8;
    if n == 0 {
      OneFits(b, c);
    } else if n == 1 {
      TwoFit(b, c);
    } else if n == 2 {
      ThreeFit(b, c);
    }
  }

  lemma OneFits(b: bv8, c: bv32)
    requires c == 0
    ensures Add(Top(b), Right8(c)) & 0x00ff_ffff == 0
  {
  }

  lemma TwoFit(b: bv8, c: bv32)
    requires c & 0x00ff_ffff == 0
    ensures Add(Top(b), Right8(c)) & 0x0000_ffff == 0
  {
  }

  lemma ThreeFit(b: bv8, c: bv32)
    requires c & 0x0000_ffff == 0
    ensures Add(Top(b), Right8(c)) & 0x0000_00ff == 0
  {
  }

  /** A word that leaves its last byte free moves up again as it was. */
  lemma FitsBelow(c: bv32, n: nat)
    requires n <= 3 && Fits(c, n)
    ensures Left8(Right8(c)) == c && NoTop4(Right8(c)) && NoTop4(Left4(Right8(c)))
    ensures Body(Right8(c)) == Right8(c) && Right8(c) & 0xff00_0000 == 0
  {
    hide Right8, Left8, Left4, NoTop4;
    LastByteFree(c, n);
    BackAgain(c);
    RightIsBody(c);
    BodyIsLow(Right8(c));
  }

  lemma LastByteFree(c: bv32, n: nat)
    requires n <= 3 && Fits(c, n)
    ensures c & 0x0000_00ff == 0
  {
    if n == 1 {
      FewerFree(c);
    } else if n == 2 {
      OneFewerFree(c);
    }
  }

  lemma FewerFree(c: bv32)
    requires c & 0x00ff_ffff == 0
    ensures c & 0x0000_00ff == 0
  {
  }

  lemma OneFewerFree(c: bv32)
    requires c & 0x0000_ffff == 0
    ensures c & 0x0000_00ff == 0
  {
  }

  lemma BackAgain(c: bv32)
    requires c & 0x0000_00ff == 0
    ensures Left8(Right8(c)) == c
  {
  }

  lemma RightIsBody(c: bv32)
    ensures Body(Right8(c)) == Right8(c) && Right8(c) & 0xff00_0000 == 0
  {
  }

  lemma {:induction false} PackFits(x: seq<bv8>)
    requires |x| <= 4
    ensures Fits(Pack(x), |x|)
  {
    hide Add, Top, Right8, Fits;
    if x != [] {
      PackFits(x[1..]);
      FitsNext(x[0], Pack(x[1..]), |x| - 1);
    } else {
      ZeroFits();
    }
  }

  lemma ZeroFits()
    ensures Fits(0, 0)
  {
  }

  /** Up to four bytes act on the register as one word that is added first. */
  lemma {:induction false} RegisterOfWord(c: bv32, x: seq<bv8>)
    requires |x| <= 4
    ensures Register(c, x) == Clocks(Add(c, Pack(x)), |x|)
    decreases |x|
  {
    hide Clock8, Add, Top, Right8, Fits, NoTop4, Left4, Left8;
    if x == [] {
      AddZero(c);
    } else {
      var d, p := Clock8(Add(c, Top(x[0]))), Pack(x[1..]);
      RegisterOfWord(d, x[1..]);
      PackFits(x[1..]);
      FitsBelow(p, |x| - 1);
      Clock8Apart(Add(c, Top(x[0])), Right8(p));
      AddAssociates(c, Top(x[0]), Right8(p));
    }
  }

  lemma AddZero(c: bv32)
    ensures Add(c, 0) == c
  {
  }

  lemma {:induction false} ClocksInjective(x: bv32, y: bv32, n: nat)
    requires Clocks(x, n) == Clocks(y, n)
    ensures x == y
    decreases n
  {
    hide Clock8;
    if n > 0 {
      ClocksInjective(Clock8(x), Clock8(y), n - 1);
      Clock8Injective(x, y);
    }
  }

  lemma PackTells(a: bv8, b: bv8, c: bv32, d: bv32, n: nat)
    requires n <= 3 && Fits(c, n) && Fits(d, n) && Add(Top(a), Right8(c)) == Add(Top(b), Right8(d))
    ensures a == b && c == d
  {
    hide Add, Top, Right8, Body, High, Fits, Left8, NoTop4, Left4;
    FitsBelow(c, n);
    FitsBelow(d, n);
    HighTells(a, Right8(c));
    HighTells(b, Right8(d));
  }

  lemma HighTells(a: bv8, c: bv32)
    ensures c & 0xff00_0000 == 0 ==> High(Add(Top(a), c)) == a && Body(Add(Top(a), c)) == c
  {
  }

  lemma {:induction false} PackInjective(x: seq<bv8>, y: seq<bv8>)
    requires |x| == |y| <= 4 && Pack(x) == Pack(y)
    ensures x == y
  {
    hide Add, Top, Right8, Fits;
    if x != [] {
      PackFits(x[1..]);
      PackFits(y[1..]);
      PackTells(x[0], y[0], Pack(x[1..]), Pack(y[1..]), |x| - 1);
      PackInjective(x[1..], y[1..]);
      assert x == [x[0]] + x[1..] && y == [y[0]] + y[1..];
    }
  }

  lemma {:induction false} RegisterAppend(c: bv32, a: seq<bv8>, b: seq<bv8>)
    ensures Register(c, a + b) == Register(Register(c, a), b)
    decreases |a|
  {
    hide Clock8, Add, Top;
    if a == [] {
      assert a + b == b;
    } else {
      assert (a + b)[1..] == a[1..] + b;
      RegisterAppend(Clock8(Add(c, Top(a[0]))), a[1..], b);
    }
  }

  /** Data that differ in at most four neighbouring bytes never have the same checksum. */
  lemma BurstsAreDetected(first: bv32, before: seq<bv8>, x: seq<bv8>, y: seq<bv8>, after: seq<bv8>)
    requires |x| == |y| <= 4
    requires Crc(first, before + x + after) == Crc(first, before + y + after)
    ensures x == y
  {
    hide Crc, Register, Swap, Pack;
    var c := Swap(first);
    SwapTwice(first);
    var d := Register(c, before);
    Split3(c, before, x, after);
    Split3(c, before, y, after);
    SwapTwice(Register(c, before + x + after));
    SwapTwice(Register(c, before + y + after));
    RegisterInjective(Register(d, x), Register(d, y), after);
    RegisterOfWord(d, x);
    RegisterOfWord(d, y);
    ClocksInjective(Add(d, Pack(x)), Add(d, Pack(y)), |x|);
    AddCommutes(d, Pack(x));
    AddCommutes(d, Pack(y));
    AddCancels(Pack(x), Pack(y), d);
    PackInjective(x, y);
  }

  lemma Split3(c: bv32, a: seq<bv8>, x: seq<bv8>, b: seq<bv8>)
    ensures Crc(Swap(c), a + x + b) == Swap(Register(c, a + x + b))
    ensures Register(c, a + x + b) == Register(Register(Register(c, a), x), b)
  {
    hide Crc, Register, Swap;
    TableComputesRegister(c, a + x + b);
    RegisterAppend(c, a + x, b);
    RegisterAppend(c, a, x);
  }

  lemma SwapTwice(c: bv32)
    ensures Swap(Swap(c)) == c
  {
  }
}
