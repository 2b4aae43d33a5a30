/**
 The CRC of the firmware uploader (Tools/px_uploader.py, crctab and __crc32): the table, row by
 row as in the source, is the one of the reflected polynomial used in section 8 of RFC 1952.
 */
module CrcTable {

  type Byte = bv8

  const POLYNOMIAL: bv32 := 0xedb88320

  function Xor(a: bv32, b: bv32): bv32 { a ^ b }

  function Half(c: bv32): bv32 { c >> 1 }

  predicate Odd(c: bv32) { c & 1 == 1 }

  /** One bit of the CRC. */
  function Bit(c: bv32): bv32 { if Odd(c) then Xor(Half(c), POLYNOMIAL) else Half(c) }

  /** Eight bits of the CRC. */
  function Bits8(c: bv32): bv32 { Bit(Bit(Bit(Bit(Bit(Bit(Bit(Bit(c)))))))) }

  // ---------- crctab, sixteen entries a row ----------

  function Row0(i: Byte): bv32 {
    match i
    case 0 => 0x00000000 case 1 => 0x77073096 case 2 => 0xee0e612c case 3 => 0x990951ba
    case 4 => 0x076dc419 case 5 => 0x706af48f case 6 => 0xe963a535 case 7 => 0x9e6495a3
    case 8 => 0x0edb8832 case 9 => 0x79dcb8a4 case 10 => 0xe0d5e91e case 11 => 0x97d2d988
    case 12 => 0x09b64c2b case 13 => 0x7eb17cbd case 14 => 0xe7b82d07
    case _ => 0x90bf1d91
  }

  function Row1(i: Byte): bv32 {
    match i
    case 0 => 0x1db71064 case 1 => 0x6ab020f2 case 2 => 0xf3b97148 case 3 => 0x84be41de
    case 4 => 0x1adad47d case 5 => 0x6ddde4eb case 6 => 0xf4d4b551 case 7 => 0x83d385c7
    case 8 => 0x136c9856 case 9 => 0x646ba8c0 case 10 => 0xfd62f97a case 11 => 0x8a65c9ec
    case 12 => 0x14015c4f case 13 => 0x63066cd9 case 14 => 0xfa0f3d63
    case _ => 0x8d080df5
  }

  function Row2(i: Byte): bv32 {
    match i
    case 0 => 0x3b6e20c8 case 1 => 0x4c69105e case 2 => 0xd56041e4 case 3 => 0xa2677172
    case 4 => 0x3c03e4d1 case 5 => 0x4b04d447 case 6 => 0xd20d85fd case 7 => 0xa50ab56b
    case 8 => 0x35b5a8fa case 9 => 0x42b2986c case 10 => 0xdbbbc9d6 case 11 => 0xacbcf940
    case 12 => 0x32d86ce3 case 13 => 0x45df5c75 case 14 => 0xdcd60dcf
    case _ => 0xabd13d59
  }

  function Row3(i: Byte): bv32 {
    match i
    case 0 => 0x26d930ac case 1 => 0x51de003a case 2 => 0xc8d75180 case 3 => 0xbfd06116
    case 4 => 0x21b4f4b5 case 5 => 0x56b3c423 case 6 => 0xcfba9599 case 7 => 0xb8bda50f
    case 8 => 0x2802b89e case 9 => 0x5f058808 case 10 => 0xc60cd9b2 case 11 => 0xb10be924
    case 12 => 0x2f6f7c87 case 13 => 0x58684c11 case 14 => 0xc1611dab
    case _ => 0xb6662d3d
  }

  function Row4(i: Byte): bv32 {
    match i
    case 0 => 0x76dc4190 case 1 => 0x01db7106 case 2 => 0x98d220bc case 3 => 0xefd5102a
    case 4 => 0x71b18589 case 5 => 0x06b6b51f case 6 => 0x9fbfe4a5 case 7 => 0xe8b8d433
    case 8 => 0x7807c9a2 case 9 => 0x0f00f934 case 10 => 0x9609a88e case 11 => 0xe10e9818
    case 12 => 0x7f6a0dbb case 13 => 0x086d3d2d case 14 => 0x91646c97
    case _ => 0xe6635c01
  }

  function Row5(i: Byte): bv32 {
    match i
    case 0 => 0x6b6b51f4 case 1 => 0x1c6c6162 case 2 => 0x856530d8 case 3 => 0xf262004e
    case 4 => 0x6c0695ed case 5 => 0x1b01a57b case 6 => 0x8208f4c1 case 7 => 0xf50fc457
    case 8 => 0x65b0d9c6 case 9 => 0x12b7e950 case 10 => 0x8bbeb8ea case 11 => 0xfcb9887c
    case 12 => 0x62dd1ddf case 13 => 0x15da2d49 case 14 => 0x8cd37cf3
    case _ => 0xfbd44c65
  }

  function Row6(i: Byte): bv32 {
    match i
    case 0 => 0x4db26158 case 1 => 0x3ab551ce case 2 => 0xa3bc0074 case 3 => 0xd4bb30e2
    case 4 => 0x4adfa541 case 5 => 0x3dd895d7 case 6 => 0xa4d1c46d case 7 => 0xd3d6f4fb
    case 8 => 0x4369e96a case 9 => 0x346ed9fc case 10 => 0xad678846 case 11 => 0xda60b8d0
    case 12 => 0x44042d73 case 13 => 0x33031de5 case 14 => 0xaa0a4c5f
    case _ => 0xdd0d7cc9
  }

  function Row7(i: Byte): bv32 {
    match i
    case 0 => 0x5005713c case 1 => 0x270241aa case 2 => 0xbe0b1010 case 3 => 0xc90c2086
    case 4 => 0x5768b525 case 5 => 0x206f85b3 case 6 => 0xb966d409 case 7 => 0xce61e49f
    case 8 => 0x5edef90e case 9 => 0x29d9c998 case 10 => 0xb0d09822 case 11 => 0xc7d7a8b4
    case 12 => 0x59b33d17 case 13 => 0x2eb40d81 case 14 => 0xb7bd5c3b
    case _ => 0xc0ba6cad
  }

  function Row8(i: Byte): bv32 {
    match i
    case 0 => 0xedb88320 case 1 => 0x9abfb3b6 case 2 => 0x03b6e20c case 3 => 0x74b1d29a
    case 4 => 0xead54739 case 5 => 0x9dd277af case 6 => 0x04db2615 case 7 => 0x73dc1683
    case 8 => 0xe3630b12 case 9 => 0x94643b84 case 10 => 0x0d6d6a3e case 11 => 0x7a6a5aa8
    case 12 => 0xe40ecf0b case 13 => 0x9309ff9d case 14 => 0x0a00ae27
    case _ => 0x7d079eb1
  }

  function Row9(i: Byte): bv32 {
    match i
    case 0 => 0xf00f9344 case 1 => 0x8708a3d2 case 2 => 0x1e01f268 case 3 => 0x6906c2fe
    case 4 => 0xf762575d case 5 => 0x806567cb case 6 => 0x196c3671 case 7 => 0x6e6b06e7
    case 8 => 0xfed41b76 case 9 => 0x89d32be0 case 10 => 0x10da7a5a case 11 => 0x67dd4acc
    case 12 => 0xf9b9df6f case 13 => 0x8ebeeff9 case 14 => 0x17b7be43
    case _ => 0x60b08ed5
  }

  function Row10(i: Byte): bv32 {
    match i
    case 0 => 0xd6d6a3e8 case 1 => 0xa1d1937e case 2 => 0x38d8c2c4 case 3 => 0x4fdff252
    case 4 => 0xd1bb67f1 case 5 => 0xa6bc5767 case 6 => 0x3fb506dd case 7 => 0x48b2364b
    case 8 => 0xd80d2bda case 9 => 0xaf0a1b4c case 10 => 0x36034af6 case 11 => 0x41047a60
    case 12 => 0xdf60efc3 case 13 => 0xa867df55 case 14 => 0x316e8eef
    case _ => 0x4669be79
  }

  function Row11(i: Byte): bv32 {
    match i
    case 0 => 0xcb61b38c case 1 => 0xbc66831a case 2 => 0x256fd2a0 case 3 => 0x5268e236
    case 4 => 0xcc0c7795 case 5 => 0xbb0b4703 case 6 => 0x220216b9 case 7 => 0x5505262f
    case 8 => 0xc5ba3bbe case 9 => 0xb2bd0b28 case 10 => 0x2bb45a92 case 11 => 0x5cb36a04
    case 12 => 0xc2d7ffa7 case 13 => 0xb5d0cf31 case 14 => 0x2cd99e8b
    case _ => 0x5bdeae1d
  }

  function Row12(i: Byte): bv32 {
    match i
    case 0 => 0x9b64c2b0 case 1 => 0xec63f226 case 2 => 0x756aa39c case 3 => 0x026d930a
    case 4 => 0x9c0906a9 case 5 => 0xeb0e363f case 6 => 0x72076785 case 7 => 0x05005713
    case 8 => 0x95bf4a82 case 9 => 0xe2b87a14 case 10 => 0x7bb12bae case 11 => 0x0cb61b38
    case 12 => 0x92d28e9b case 13 => 0xe5d5be0d case 14 => 0x7cdcefb7
    case _ => 0x0bdbdf21
  }

  function Row13(i: Byte): bv32 {
    match i
    case 0 => 0x86d3d2d4 case 1 => 0xf1d4e242 case 2 => 0x68ddb3f8 case 3 => 0x1fda836e
    case 4 => 0x81be16cd case 5 => 0xf6b9265b case 6 => 0x6fb077e1 case 7 => 0x18b74777
    case 8 => 0x88085ae6 case 9 => 0xff0f6a70 case 10 => 0x66063bca case 11 => 0x11010b5c
    case 12 => 0x8f659eff case 13 => 0xf862ae69 case 14 => 0x616bffd3
    case _ => 0x166ccf45
  }

  function Row14(i: Byte): bv32 {
    match i
    case 0 => 0xa00ae278 case 1 => 0xd70dd2ee case 2 => 0x4e048354 case 3 => 0x3903b3c2
    case 4 => 0xa7672661 case 5 => 0xd06016f7 case 6 => 0x4969474d case 7 => 0x3e6e77db
    case 8 => 0xaed16a4a case 9 => 0xd9d65adc case 10 => 0x40df0b66 case 11 => 0x37d83bf0
    case 12 => 0xa9bcae53 case 13 => 0xdebb9ec5 case 14 => 0x47b2cf7f
    case _ => 0x30b5ffe9
  }

  function Row15(i: Byte): bv32 {
    match i
    case 0 => 0xbdbdf21c case 1 => 0xcabac28a case 2 => 0x53b39330 case 3 => 0x24b4a3a6
    case 4 => 0xbad03605 case 5 => 0xcdd70693 case 6 => 0x54de5729 case 7 => 0x23d967bf
    case 8 => 0xb3667a2e case 9 => 0xc4614ab8 case 10 => 0x5d681b02 case 11 => 0x2a6f2b94
    case 12 => 0xb40bbe37 case 13 => 0xc30c8ea1 case 14 => 0x5a05df1b
    case _ => 0x2d02ef8d
  }

  /** crctab[i] */
  function Crctab(i: Byte): bv32 {
    var low := i & 15;
    match i >> 4
    case 0 => Row0(low) case 1 => Row1(low) case 2 => Row2(low) case 3 => Row3(low)
    case 4 => Row4(low) case 5 => Row5(low) case 6 => Row6(low) case 7 => Row7(low)
    case 8 => Row8(low) case 9 => Row9(low) case 10 => Row10(low) case 11 => Row11(low)
    case 12 => Row12(low) case 13 => Row13(low) case 14 => Row14(low)
    case _ => Row15(low)
  }

  // ---------- the table is linear ----------

  function Pick(i: Byte, bit: Byte, c: bv32): bv32 { if i & bit != 0 then c else 0 }

  /** The sum of the entries 1, 2, 4 ... 128 of the table that the bits of i select. */
  function Linear(i: Byte): bv32 {
    Xor(Xor(Xor(Pick(i, 1, 0x77073096), Pick(i, 2, 0xee0e612c)), Xor(Pick(i, 4, 0x076dc419), Pick(i, 8, 0x0edb8832))),
        Xor(Xor(Pick(i, 16, 0x1db71064), Pick(i, 32, 0x3b6e20c8)), Xor(Pick(i, 64, 0x76dc4190), Pick(i, 128, 0xedb88320))))
  }

  lemma Row0IsLinear(i: Byte)
    requires i < 16
    ensures Row0(i) == Linear(i | 0)
  {
  }

  lemma Row1IsLinear(i: Byte)
    requires i < 16
    ensures Row1(i) == Linear(i | 16)
  {
  }

  lemma Row2IsLinear(i: Byte)
    requires i < 16
    ensures Row2(i) == Linear(i | 32)
  {
  }

  lemma Row3IsLinear(i: Byte)
    requires i < 16
    ensures Row3(i) == Linear(i | 48)
  {
  }

  lemma Row4IsLinear(i: Byte)
    requires i < 16
    ensures Row4(i) == Linear(i | 64)
  {
  }

  lemma Row5IsLinear(i: Byte)
    requires i < 16
    ensures Row5(i) == Linear(i | 80)
  {
  }

  lemma Row6IsLinear(i: Byte)
    requires i < 16
    ensures Row6(i) == Linear(i | 96)
  {
  }

  lemma Row7IsLinear(i: Byte)
    requires i < 16
    ensures Row7(i) == Linear(i | 112)
  {
  }

  lemma Row8IsLinear(i: Byte)
    requires i < 16
    ensures Row8(i) == Linear(i | 128)
  {
  }

  lemma Row9IsLinear(i: Byte)
    requires i < 16
    ensures Row9(i) == Linear(i | 144)
  {
  }

  lemma Row10IsLinear(i: Byte)
    requires i < 16
    ensures Row10(i) == Linear(i | 160)
  {
  }

  lemma Row11IsLinear(i: Byte)
    requires i < 16
    ensures Row11(i) == Linear(i | 176)
  {
  }

  lemma Row12IsLinear(i: Byte)
    requires i < 16
    ensures Row12(i) == Linear(i | 192)
  {
  }

  lemma Row13IsLinear(i: Byte)
    requires i < 16
    ensures Row13(i) == Linear(i | 208)
  {
  }

  lemma Row14IsLinear(i: Byte)
    requires i < 16
    ensures Row14(i) == Linear(i | 224)
  {
  }

  lemma Row15IsLinear(i: Byte)
    requires i < 16
    ensures Row15(i) == Linear(i | 240)
  {
  }

  lemma NibblesJoin(i: Byte)
    ensures (i & 15) < 16 && (i & 15) | ((i >> 4) << 4) == i
  {
  }

  lemma TableIsLinear(i: Byte)
    ensures Crctab(i) == Linear(i)
  {
    var low := i & 15;
    NibblesJoin(i);
    hide Linear, Row0, Row1, Row2, Row3, Row4, Row5, Row6, Row7, Row8, Row9, Row10, Row11, Row12, Row13, Row14, Row15;
    match i >> 4
    case 0 => Row0IsLinear(low);
    case 1 => Row1IsLinear(low);
    case 2 => Row2IsLinear(low);
    case 3 => Row3IsLinear(low);
    case 4 => Row4IsLinear(low);
    case 5 => Row5IsLinear(low);
    case 6 => Row6IsLinear(low);
    case 7 => Row7IsLinear(low);
    case 8 => Row8IsLinear(low);
    case 9 => Row9IsLinear(low);
    case 10 => Row10IsLinear(low);
    case 11 => Row11IsLinear(low);
    case 12 => Row12IsLinear(low);
    case 13 => Row13IsLinear(low);
    case 14 => Row14IsLinear(low);
    case _ => Row15IsLinear(low);
  }

  // ---------- and so are the bits of the CRC ----------

  lemma XorParts(a: bv32, b: bv32)
    ensures Odd(Xor(a, b)) <==> Odd(a) != Odd(b)
    ensures Half(Xor(a, b)) == Xor(Half(a), Half(b))
  {
  }

  lemma XorRules(a: bv32, b: bv32, c: bv32)
    ensures Xor(Xor(a, c), b) == Xor(Xor(a, b), c)
    ensures Xor(a, Xor(b, c)) == Xor(Xor(a, b), c)
    ensures Xor(Xor(a, c), Xor(b, c)) == Xor(a, b)
  {
  }

  lemma BitIsLinear(a: bv32, b: bv32)
    ensures Bit(Xor(a, b)) == Xor(Bit(a), Bit(b))
  {
    hide Xor, Half, Odd;
    XorParts(a, b);
    XorRules(Half(a), Half(b), POLYNOMIAL);
  }

  lemma Bits8IsLinear(a: bv32, b: bv32)
    ensures Bits8(Xor(a, b)) == Xor(Bits8(a), Bits8(b))
  {
    hide Xor, Bit;
    var a1, b1 := Bit(a), Bit(b);
    var a2, b2 := Bit(a1), Bit(b1);
    var a3, b3 := Bit(a2), Bit(b2);
    var a4, b4 := Bit(a3), Bit(b3);
    var a5, b5 := Bit(a4), Bit(b4);
    var a6, b6 := Bit(a5), Bit(b5);
    var a7, b7 := Bit(a6), Bit(b6);
    BitIsLinear(a, b);
    BitIsLinear(a1, b1);
    BitIsLinear(a2, b2);
    BitIsLinear(a3, b3);
    BitIsLinear(a4, b4);
    BitIsLinear(a5, b5);
    BitIsLinear(a6, b6);
    BitIsLinear(a7, b7);
  }

  lemma PowersShift()
    ensures Bit(128) == 64 && Bit(64) == 32 && Bit(32) == 16 && Bit(16) == 8
    ensures Bit(8) == 4 && Bit(4) == 2 && Bit(2) == 1 && Bit(0) == 0
  {
  }

  lemma OneShifts()
    ensures Bit(1) == 0xedb88320 && Bit(0xedb88320) == 0x76dc4190
    ensures Bit(0x76dc4190) == 0x3b6e20c8 && Bit(0x3b6e20c8) == 0x1db71064
    ensures Bit(0x1db71064) == 0x0edb8832 && Bit(0x0edb8832) == 0x076dc419
    ensures Bit(0x076dc419) == 0xee0e612c && Bit(0xee0e612c) == 0x77073096
  {
  }

  lemma PowersIn8Bits()
    ensures Bits8(0) == 0
    ensures Bits8(1) == 0x77073096 && Bits8(2) == 0xee0e612c && Bits8(4) == 0x076dc419 && Bits8(8) == 0x0edb8832
    ensures Bits8(16) == 0x1db71064 && Bits8(32) == 0x3b6e20c8 && Bits8(64) == 0x76dc4190 && Bits8(128) == 0xedb88320
  {
    hide Bit;
    PowersShift();
    OneShifts();
  }

  function Wide(b: Byte): bv32 { b as bv32 }

  lemma PickIsMask(i: Byte)
    ensures Pick(i, 1, 1) == Wide(i & 1) && Pick(i, 2, 2) == Wide(i & 2)
    ensures Pick(i, 4, 4) == Wide(i & 4) && Pick(i, 8, 8) == Wide(i & 8)
    ensures Pick(i, 16, 16) == Wide(i & 16) && Pick(i, 32, 32) == Wide(i & 32)
    ensures Pick(i, 64, 64) == Wide(i & 64) && Pick(i, 128, 128) == Wide(i & 128)
  {
  }

  lemma MasksJoin(i: Byte)
    ensures Wide(i) == Xor(Xor(Xor(Wide(i & 1), Wide(i & 2)), Xor(Wide(i & 4), Wide(i & 8))),
                           Xor(Xor(Wide(i & 16), Wide(i & 32)), Xor(Wide(i & 64), Wide(i & 128))))
  {
  }

  lemma ByteIsSumOfBits(i: Byte)
    ensures Wide(i) == Xor(Xor(Xor(Pick(i, 1, 1), Pick(i, 2, 2)), Xor(Pick(i, 4, 4), Pick(i, 8, 8))),
                           Xor(Xor(Pick(i, 16, 16), Pick(i, 32, 32)), Xor(Pick(i, 64, 64), Pick(i, 128, 128))))
  {
    hide Xor, Pick, Wide;
    PickIsMask(i);
    MasksJoin(i);
  }

  lemma PickThrough(i: Byte, bit: Byte, c: bv32)
    ensures Bits8(Pick(i, bit, c)) == Pick(i, bit, Bits8(c))
  {
    hide Bits8;
    PowersIn8Bits();
  }

  /** Every entry of the table is its index, put through eight bits of the CRC. */
  lemma TableIsBitwise(i: Byte)
    ensures Crctab(i) == Bits8(Wide(i))
  {
    hide Bits8, Crctab, Xor, Wide, Pick;
    var p1, p2, p4, p8 := Pick(i, 1, 1), Pick(i, 2, 2), Pick(i, 4, 4), Pick(i, 8, 8);
    var p16, p32, p64, p128 := Pick(i, 16, 16), Pick(i, 32, 32), Pick(i, 64, 64), Pick(i, 128, 128);
    TableIsLinear(i);
    ByteIsSumOfBits(i);
    Bits8IsLinear(Xor(Xor(p1, p2), Xor(p4, p8)), Xor(Xor(p16, p32), Xor(p64, p128)));
    Bits8IsLinear(Xor(p1, p2), Xor(p4, p8));
    Bits8IsLinear(Xor(p16, p32), Xor(p64, p128));
    Bits8IsLinear(p1, p2);
    Bits8IsLinear(p4, p8);
    Bits8IsLinear(p16, p32);
    Bits8IsLinear(p64, p128);
    PowersIn8Bits();
    PickThrough(i, 1, 1);
    PickThrough(i, 2, 2);
    PickThrough(i, 4, 4);
    PickThrough(i, 8, 8);
    PickThrough(i, 16, 16);
    PickThrough(i, 32, 32);
    PickThrough(i, 64, 64);
    PickThrough(i, 128, 128);
  }

  // ---------- the table step is eight bits of the CRC ----------

  function Half8(b: bv32): bv32 { Half(Half(Half(Half(Half(Half(Half(Half(b)))))))) }

  lemma Half8IsShift(b: bv32)
    ensures Half8(b) == b >> 8
  {
  }

  predicate LowByteClear(b: bv32) {
    && !Odd(b) && !Odd(Half(b)) && !Odd(Half(Half(b))) && !Odd(Half(Half(Half(b))))
    && !Odd(Half(Half(Half(Half(b))))) && !Odd(Half(Half(Half(Half(Half(b))))))
    && !Odd(Half(Half(Half(Half(Half(Half(b))))))) && !Odd(Half(Half(Half(Half(Half(Half(Half(b))))))))
  }

  lemma LowByteClearIsMask(b: bv32)
    requires b & 0xff == 0
    ensures LowByteClear(b)
  {
  }

  /** A number with its low byte clear is only shifted. */
  lemma Bits8OfHigh(b: bv32)
    requires LowByteClear(b)
    ensures Bits8(b) == Half8(b)
  {
    hide Xor, Half, Odd;
  }

  lemma Bits8OfSum(a: bv32, b: bv32)
    requires LowByteClear(b)
    ensures Bits8(Xor(a, b)) == Xor(Bits8(a), Half8(b))
  {
    hide Xor, Bits8, Half8, LowByteClear;
    Bits8IsLinear(a, b);
    Bits8OfHigh(b);
  }

  // ---------- __crc32 ----------

  function Low(x: bv32): Byte { (x & 0xff) as Byte }

  function High(x: bv32): bv32 { x & 0xffffff00 }

  function Shift8(x: bv32): bv32 { x >> 8 }

  /** The body of __crc32's loop. */
  function TableStep(state: bv32, byte: Byte): bv32 {
    Xor(Crctab(Low(Xor(state, Wide(byte)))), Shift8(state))
  }

  lemma SplitWord(x: bv32)
    ensures Xor(Wide(Low(x)), High(x)) == x
    ensures High(x) & 0xff == 0
    ensures Shift8(High(x)) == Shift8(x)
  {
  }

  lemma HighHalves(x: bv32)
    ensures LowByteClear(High(x)) && Half8(High(x)) == Shift8(x)
  {
    SplitWord(x);
    LowByteClearIsMask(High(x));
    Half8IsShift(High(x));
  }

  lemma ByteDoesNotReach(state: bv32, byte: Byte)
    ensures Shift8(Xor(state, Wide(byte))) == Shift8(state)
  {
  }

  /** One table step is eight bits of the CRC on the state with the byte added. */
  lemma TableStepIsBitwise(state: bv32, byte: Byte)
    ensures TableStep(state, byte) == Bits8(Xor(state, Wide(byte)))
  {
    hide Bits8, Crctab, Low, High, Half8, LowByteClear, Xor, Wide, Shift8;
    var x := Xor(state, Wide(byte));
    SplitWord(x);
    HighHalves(x);
    Bits8OfSum(Wide(Low(x)), High(x));
    TableIsBitwise(Low(x));
    ByteDoesNotReach(state, byte);
  }

  // ---------- every step can be undone ----------

  predicate TopSet(c: bv32) { c & 0x8000_0000 != 0 }

  function Unbit(c: bv32): bv32 {
    if TopSet(c) then ((c ^ POLYNOMIAL) << 1) | 1 else c << 1
  }

  lemma UnbitOdd(c: bv32)
    requires Odd(c)
    ensures TopSet(Xor(Half(c), POLYNOMIAL)) && Unbit(Xor(Half(c), POLYNOMIAL)) == c
  {
  }

  lemma UnbitEven(c: bv32)
    requires !Odd(c)
    ensures !TopSet(Half(c)) && Unbit(Half(c)) == c
  {
  }

  lemma BitIsUndone(c: bv32)
    ensures Unbit(Bit(c)) == c
  {
    hide Odd, Half, Xor, TopSet, Unbit;
    if Odd(c) {
      UnbitOdd(c);
    } else {
      UnbitEven(c);
    }
  }

  lemma BitInjective(c: bv32, d: bv32)
    requires Bit(c) == Bit(d)
    ensures c == d
  {
    hide Bit, Unbit;
    BitIsUndone(c);
    BitIsUndone(d);
  }

  lemma Bits8Injective(c: bv32, d: bv32)
    requires Bits8(c) == Bits8(d)
    ensures c == d
  {
    hide Bit;
    BitInjective(Bit(Bit(Bit(Bit(Bit(Bit(Bit(c))))))), Bit(Bit(Bit(Bit(Bit(Bit(Bit(d))))))));
    BitInjective(Bit(Bit(Bit(Bit(Bit(Bit(c)))))), Bit(Bit(Bit(Bit(Bit(Bit(d)))))));
    BitInjective(Bit(Bit(Bit(Bit(Bit(c))))), Bit(Bit(Bit(Bit(Bit(d))))));
    BitInjective(Bit(Bit(Bit(Bit(c)))), Bit(Bit(Bit(Bit(d)))));
    BitInjective(Bit(Bit(Bit(c))), Bit(Bit(Bit(d))));
    BitInjective(Bit(Bit(c)), Bit(Bit(d)));
    BitInjective(Bit(c), Bit(d));
    BitInjective(c, d);
  }
}
