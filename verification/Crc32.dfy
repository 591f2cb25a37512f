/** The string hash of the mod: a byte-at-a-time CRC-32 driven by a table of 256 literals
    (mod/src/algorithms/crc32.h), against the bit-at-a-time definition of the reflected CRC-32
    of ITU-T V.42 section 8.1.1.6.2. */
module Crc32 {

  type Str = seq<bv8>

  /** The generator polynomial, bit-reversed. */
  const POLY: bv32 := 0xedb88320
  const ALL_ONES: bv32 := 0xffffffff

  // ---------------------------------------------------------------- the reference definition

  /** Exclusive or under a name, so that the proofs above the bit level can treat it as a group. */
  function Xor(a: bv32, b: bv32): bv32 {
    a ^ b
  }

  function Half(c: bv32): bv32 {
    c >> 1
  }

  predicate Odd(c: bv32) {
    c & 1 == 1
  }

  /** One step of the register on a zero message bit. */
  function Step(c: bv32): bv32 {
    if Odd(c) then Xor(Half(c), POLY) else Half(c)
  }

  /** Shifts one message bit into the register. */
  function FeedBit(crc: bv32, bit: bool): bv32 {
    if Odd(crc) != bit then Xor(Half(crc), POLY) else Half(crc)
  }

  function FeedBits(crc: bv32, bits: seq<bool>): bv32
    decreases |bits|
  {
    if bits == [] then crc else FeedBits(FeedBit(crc, bits[0]), bits[1..])
  }

  /** The bits of a byte in transmission order: least significant first. */
  function BitsOf(b: bv8): seq<bool> {
    [b & 1 != 0, b & 2 != 0, b & 4 != 0, b & 8 != 0, b & 16 != 0, b & 32 != 0, b & 64 != 0, b & 128 != 0]
  }

  function Message(str: Str): seq<bool> {
    if str == [] then [] else BitsOf(str[0]) + Message(str[1..])
  }

  /** CRC-32 of a string: preset to ones, one step per message bit, complemented. */
  function CrcOf(str: Str): bv32 {
    Xor(FeedBits(ALL_ONES, Message(str)), ALL_ONES)
  }

  // ---------------------------------------------------------------- the table

  /** `s_Table`, sixteen entries a row. */
  const TABLE: seq<seq<bv32>> := [
    [0x00000000, 0x77073096, 0xee0e612c, 0x990951ba, 0x076dc419, 0x706af48f, 0xe963a535, 0x9e6495a3,
     0x0edb8832, 0x79dcb8a4, 0xe0d5e91e, 0x97d2d988, 0x09b64c2b, 0x7eb17cbd, 0xe7b82d07, 0x90bf1d91],
    [0x1db71064, 0x6ab020f2, 0xf3b97148, 0x84be41de, 0x1adad47d, 0x6ddde4eb, 0xf4d4b551, 0x83d385c7,
     0x136c9856, 0x646ba8c0, 0xfd62f97a, 0x8a65c9ec, 0x14015c4f, 0x63066cd9, 0xfa0f3d63, 0x8d080df5],
    [0x3b6e20c8, 0x4c69105e, 0xd56041e4, 0xa2677172, 0x3c03e4d1, 0x4b04d447, 0xd20d85fd, 0xa50ab56b,
     0x35b5a8fa, 0x42b2986c, 0xdbbbc9d6, 0xacbcf940, 0x32d86ce3, 0x45df5c75, 0xdcd60dcf, 0xabd13d59],
    [0x26d930ac, 0x51de003a, 0xc8d75180, 0xbfd06116, 0x21b4f4b5, 0x56b3c423, 0xcfba9599, 0xb8bda50f,
     0x2802b89e, 0x5f058808, 0xc60cd9b2, 0xb10be924, 0x2f6f7c87, 0x58684c11, 0xc1611dab, 0xb6662d3d],
    [0x76dc4190, 0x01db7106, 0x98d220bc, 0xefd5102a, 0x71b18589, 0x06b6b51f, 0x9fbfe4a5, 0xe8b8d433,
     0x7807c9a2, 0x0f00f934, 0x9609a88e, 0xe10e9818, 0x7f6a0dbb, 0x086d3d2d, 0x91646c97, 0xe6635c01],
    [0x6b6b51f4, 0x1c6c6162, 0x856530d8, 0xf262004e, 0x6c0695ed, 0x1b01a57b, 0x8208f4c1, 0xf50fc457,
     0x65b0d9c6, 0x12b7e950, 0x8bbeb8ea, 0xfcb9887c, 0x62dd1ddf, 0x15da2d49, 0x8cd37cf3, 0xfbd44c65],
    [0x4db26158, 0x3ab551ce, 0xa3bc0074, 0xd4bb30e2, 0x4adfa541, 0x3dd895d7, 0xa4d1c46d, 0xd3d6f4fb,
     0x4369e96a, 0x346ed9fc, 0xad678846, 0xda60b8d0, 0x44042d73, 0x33031de5, 0xaa0a4c5f, 0xdd0d7cc9],
    [0x5005713c, 0x270241aa, 0xbe0b1010, 0xc90c2086, 0x5768b525, 0x206f85b3, 0xb966d409, 0xce61e49f,
     0x5edef90e, 0x29d9c998, 0xb0d09822, 0xc7d7a8b4, 0x59b33d17, 0x2eb40d81, 0xb7bd5c3b, 0xc0ba6cad],
    [0xedb88320, 0x9abfb3b6, 0x03b6e20c, 0x74b1d29a, 0xead54739, 0x9dd277af, 0x04db2615, 0x73dc1683,
     0xe3630b12, 0x94643b84, 0x0d6d6a3e, 0x7a6a5aa8, 0xe40ecf0b, 0x9309ff9d, 0x0a00ae27, 0x7d079eb1],
    [0xf00f9344, 0x8708a3d2, 0x1e01f268, 0x6906c2fe, 0xf762575d, 0x806567cb, 0x196c3671, 0x6e6b06e7,
     0xfed41b76, 0x89d32be0, 0x10da7a5a, 0x67dd4acc, 0xf9b9df6f, 0x8ebeeff9, 0x17b7be43, 0x60b08ed5],
    [0xd6d6a3e8, 0xa1d1937e, 0x38d8c2c4, 0x4fdff252, 0xd1bb67f1, 0xa6bc5767, 0x3fb506dd, 0x48b2364b,
     0xd80d2bda, 0xaf0a1b4c, 0x36034af6, 0x41047a60, 0xdf60efc3, 0xa867df55, 0x316e8eef, 0x4669be79],
    [0xcb61b38c, 0xbc66831a, 0x256fd2a0, 0x5268e236, 0xcc0c7795, 0xbb0b4703, 0x220216b9, 0x5505262f,
     0xc5ba3bbe, 0xb2bd0b28, 0x2bb45a92, 0x5cb36a04, 0xc2d7ffa7, 0xb5d0cf31, 0x2cd99e8b, 0x5bdeae1d],
    [0x9b64c2b0, 0xec63f226, 0x756aa39c, 0x026d930a, 0x9c0906a9, 0xeb0e363f, 0x72076785, 0x05005713,
     0x95bf4a82, 0xe2b87a14, 0x7bb12bae, 0x0cb61b38, 0x92d28e9b, 0xe5d5be0d, 0x7cdcefb7, 0x0bdbdf21],
    [0x86d3d2d4, 0xf1d4e242, 0x68ddb3f8, 0x1fda836e, 0x81be16cd, 0xf6b9265b, 0x6fb077e1, 0x18b74777,
     0x88085ae6, 0xff0f6a70, 0x66063bca, 0x11010b5c, 0x8f659eff, 0xf862ae69, 0x616bffd3, 0x166ccf45],
    [0xa00ae278, 0xd70dd2ee, 0x4e048354, 0x3903b3c2, 0xa7672661, 0xd06016f7, 0x4969474d, 0x3e6e77db,
     0xaed16a4a, 0xd9d65adc, 0x40df0b66, 0x37d83bf0, 0xa9bcae53, 0xdebb9ec5, 0x47b2cf7f, 0x30b5ffe9],
    [0xbdbdf21c, 0xcabac28a, 0x53b39330, 0x24b4a3a6, 0xbad03605, 0xcdd70693, 0x54de5729, 0x23d967bf,
     0xb3667a2e, 0xc4614ab8, 0x5d681b02, 0x2a6f2b94, 0xb40bbe37, 0xc30c8ea1, 0x5a05df1b, 0x2d02ef8d]
  ]

  function Entry(i: bv32): bv32
    requires i < 256
  {
    TABLE[(i >> 4) as nat][(i & 15) as nat]
  }

  function Step8(c: bv32): bv32 {
    Step(Step(Step(Step(Step(Step(Step(Step(c))))))))
  }

  lemma TableRow0(i: bv32)
    requires 0 <= i < 16
    ensures Entry(i) == Step8(i)
  {
    if i < 4 {} else if i < 8 {} else if i < 12 {}
  }

  lemma TableRow1(i: bv32)
    requires 16 <= i < 32
    ensures Entry(i) == Step8(i)
  {
    if i < 20 {} else if i < 24 {} else if i < 28 {}
  }

  lemma TableRow2(i: bv32)
    requires 32 <= i < 48
    ensures Entry(i) == Step8(i)
  {
    if i < 36 {} else if i < 40 {} else if i < 44 {}
  }

  lemma TableRow3(i: bv32)
    requires 48 <= i < 64
    ensures Entry(i) == Step8(i)
  {
    if i < 52 {} else if i < 56 {} else if i < 60 {}
  }

  lemma TableRow4(i: bv32)
    requires 64 <= i < 80
    ensures Entry(i) == Step8(i)
  {
    if i < 68 {} else if i < 72 {} else if i < 76 {}
  }

  lemma TableRow5(i: bv32)
    requires 80 <= i < 96
    ensures Entry(i) == Step8(i)
  {
    if i < 84 {} else if i < 88 {} else if i < 92 {}
  }

  lemma TableRow6(i: bv32)
    requires 96 <= i < 112
    ensures Entry(i) == Step8(i)
  {
    if i < 100 {} else if i < 104 {} else if i < 108 {}
  }

  lemma TableRow7(i: bv32)
    requires 112 <= i < 128
    ensures Entry(i) == Step8(i)
  {
    if i < 116 {} else if i < 120 {} else if i < 124 {}
  }

  lemma TableRow8(i: bv32)
    requires 128 <= i < 144
    ensures Entry(i) == Step8(i)
  {
    if i < 132 {} else if i < 136 {} else if i < 140 {}
  }

  lemma TableRow9(i: bv32)
    requires 144 <= i < 160
    ensures Entry(i) == Step8(i)
  {
    if i < 148 {} else if i < 152 {} else if i < 156 {}
  }

  lemma TableRow10(i: bv32)
    requires 160 <= i < 176
    ensures Entry(i) == Step8(i)
  {
    if i < 164 {} else if i < 168 {} else if i < 172 {}
  }

  lemma TableRow11(i: bv32)
    requires 176 <= i < 192
    ensures Entry(i) == Step8(i)
  {
    if i < 180 {} else if i < 184 {} else if i < 188 {}
  }

  lemma TableRow12(i: bv32)
    requires 192 <= i < 208
    ensures Entry(i) == Step8(i)
  {
    if i < 196 {} else if i < 200 {} else if i < 204 {}
  }

  lemma TableRow13(i: bv32)
    requires 208 <= i < 224
    ensures Entry(i) == Step8(i)
  {
    if i < 212 {} else if i < 216 {} else if i < 220 {}
  }

  lemma TableRow14(i: bv32)
    requires 224 <= i < 240
    ensures Entry(i) == Step8(i)
  {
    if i < 228 {} else if i < 232 {} else if i < 236 {}
  }

  lemma TableRow15(i: bv32)
    requires 240 <= i < 256
    ensures Entry(i) == Step8(i)
  {
    if i < 244 {} else if i < 248 {} else if i < 252 {}
  }

  /** Every one of the 256 literals is eight one-bit steps of its index. */
  lemma TableIsEightSteps(i: bv32)
    requires i < 256
    ensures Entry(i) == Step8(i)
  {
    hide Entry, Step8;
    if i < 16 { TableRow0(i); }
    else if i < 32 { TableRow1(i); }
    else if i < 48 { TableRow2(i); }
    else if i < 64 { TableRow3(i); }
    else if i < 80 { TableRow4(i); }
    else if i < 96 { TableRow5(i); }
    else if i < 112 { TableRow6(i); }
    else if i < 128 { TableRow7(i); }
    else if i < 144 { TableRow8(i); }
    else if i < 160 { TableRow9(i); }
    else if i < 176 { TableRow10(i); }
    else if i < 192 { TableRow11(i); }
    else if i < 208 { TableRow12(i); }
    else if i < 224 { TableRow13(i); }
    else if i < 240 { TableRow14(i); }
    else { TableRow15(i); }
  }

  // ---------------------------------------------------------------- linearity of the register

  lemma XorSwap(x: bv32, y: bv32, z: bv32)
    ensures Xor(x, Xor(y, z)) == Xor(Xor(x, z), y)
  {
  }

  lemma XorCancel(x: bv32, y: bv32, z: bv32)
    requires Xor(x, z) == Xor(y, z) || Xor(z, x) == Xor(z, y)
    ensures x == y
  {
  }

  lemma XorZero(x: bv32)
    ensures Xor(x, 0) == x
  {
  }

  lemma XorTwice(x: bv32, p: bv32)
    ensures Xor(Xor(x, p), p) == x
  {
  }

  lemma XorBoth(x: bv32, y: bv32, p: bv32)
    ensures Xor(Xor(x, p), Xor(y, p)) == Xor(x, y)
  {
    hide Xor;
    XorSwap(Xor(x, p), y, p);
    XorTwice(x, p);
  }

  lemma ShiftOfXor(a: bv32, b: bv32)
    ensures Half(Xor(a, b)) == Xor(Half(a), Half(b))
  {
  }

  lemma OddOfXor(a: bv32, b: bv32)
    ensures Odd(Xor(a, b)) == (Odd(a) != Odd(b))
  {
  }

  lemma StepIsLinear(a: bv32, b: bv32)
    ensures Step(Xor(a, b)) == Xor(Step(a), Step(b))
  {
    hide Xor, Odd, Half;
    var x, y := Half(a), Half(b);
    ShiftOfXor(a, b);
    OddOfXor(a, b);
    XorBoth(x, y, POLY);
    XorSwap(x, y, POLY);
    XorAssoc(x, y, POLY);
  }

  lemma XorAssoc(x: bv32, y: bv32, z: bv32)
    ensures Xor(x, Xor(y, z)) == Xor(Xor(x, y), z)
  {
  }

  lemma Step8IsLinear(a: bv32, b: bv32)
    ensures Step8(Xor(a, b)) == Xor(Step8(a), Step8(b))
  {
    hide Step, Xor;
    var a1, b1 := Step(a), Step(b);
    StepIsLinear(a, b);
    var a2, b2 := Step(a1), Step(b1);
    StepIsLinear(a1, b1);
    var a3, b3 := Step(a2), Step(b2);
    StepIsLinear(a2, b2);
    var a4, b4 := Step(a3), Step(b3);
    StepIsLinear(a3, b3);
    var a5, b5 := Step(a4), Step(b4);
    StepIsLinear(a4, b4);
    var a6, b6 := Step(a5), Step(b5);
    StepIsLinear(a5, b5);
    var a7, b7 := Step(a6), Step(b6);
    StepIsLinear(a6, b6);
    StepIsLinear(a7, b7);
  }

  /** The upper 24 bits of a register only move down during the eight steps of a byte. */
  lemma Step8OfUpper(c: bv32)
    requires c & 0xff == 0
    ensures Step8(c) == c >> 8
  {
  }

  lemma StepIsInjective(a: bv32, b: bv32)
    requires Step(a) == Step(b)
    ensures a == b
  {
  }

  /** A message bit toggles the feedback. */
  lemma FeedBitIsStep(crc: bv32, bit: bool)
    ensures FeedBit(crc, bit) == Xor(Step(crc), Step(Bit(bit)))
  {
    StepOfBit(bit);
    hide Xor, Odd, Bit, Half;
    XorTwice(Half(crc), POLY);
    XorZero(Step(crc));
  }

  lemma StepOfBit(bit: bool)
    ensures Step(Bit(bit)) == if bit then POLY else 0
  {
  }

  function Bit(b: bool): bv32 {
    if b then 1 else 0
  }

  // ---------------------------------------------------------------- windows of up to 32 bits

  function Steps(c: bv32, n: nat): bv32
    decreases n
  {
    if n == 0 then c else Steps(Step(c), n - 1)
  }

  lemma {:induction false} StepsIsInjective(a: bv32, b: bv32, n: nat)
    requires Steps(a, n) == Steps(b, n)
    ensures a == b
    decreases n
  {
    hide Step;
    if n != 0 {
      StepsIsInjective(Step(a), Step(b), n - 1);
      StepIsInjective(a, b);
    }
  }

  const POWERS: seq<bv32> := [
    0x1, 0x2, 0x4, 0x8, 0x10, 0x20, 0x40, 0x80, 0x100, 0x200, 0x400, 0x800, 0x1000, 0x2000,
    0x4000, 0x8000, 0x10000, 0x20000, 0x40000, 0x80000, 0x100000, 0x200000, 0x400000, 0x800000,
    0x1000000, 0x2000000, 0x4000000, 0x8000000, 0x10000000, 0x20000000, 0x40000000, 0x80000000
  ]

  lemma StepOfLowPower(k: nat)
    requires 1 <= k <= 10
    ensures Step(POWERS[k]) == POWERS[k - 1] && !Odd(POWERS[k])
  {
    if k == 1 {} else if k == 2 {} else if k == 3 {}
    else if k == 4 {} else if k == 5 {} else if k == 6 {}
    else if k == 7 {} else if k == 8 {} else if k == 9 {}
    else { assert k == 10; }
  }

  lemma StepOfMiddlePower(k: nat)
    requires 11 <= k <= 20
    ensures Step(POWERS[k]) == POWERS[k - 1] && !Odd(POWERS[k])
  {
    if k == 11 {} else if k == 12 {} else if k == 13 {}
    else if k == 14 {} else if k == 15 {} else if k == 16 {}
    else if k == 17 {} else if k == 18 {} else if k == 19 {}
    else { assert k == 20; }
  }

  lemma StepOfHighPower(k: nat)
    requires 21 <= k <= 31
    ensures Step(POWERS[k]) == POWERS[k - 1] && !Odd(POWERS[k])
  {
    if k == 21 {} else if k == 22 {} else if k == 23 {}
    else if k == 24 {} else if k == 25 {} else if k == 26 {}
    else if k == 27 {} else if k == 28 {} else if k == 29 {}
    else if k == 30 {}
    else { assert k == 31; }
  }

  lemma StepOfPower(k: nat)
    requires 0 < k < 32
    ensures Step(POWERS[k]) == POWERS[k - 1] && !Odd(POWERS[k])
  {
    hide Step, Odd, POWERS;
    if k <= 10 { StepOfLowPower(k); } else if k <= 20 { StepOfMiddlePower(k); } else { StepOfHighPower(k); }
  }

  /** A message bit at position `k` of a word. */
  function Place(bit: bool, k: nat): bv32
    requires k < 32
  {
    if bit then POWERS[k] else 0
  }

  lemma StepOfPlace(bit: bool, k: nat)
    requires 0 < k < 32
    ensures Step(Place(bit, k)) == Place(bit, k - 1) && !Odd(Place(bit, k))
  {
    StepOfPower(k);
  }

  lemma LowestPlace(bit: bool)
    ensures Place(bit, 0) == Bit(bit) && Odd(Bit(bit)) == bit
  {
  }

  /** A window of message bits as a word, its first bit at position `k`. */
  function Pack(bits: seq<bool>, k: nat): bv32
    requires k + |bits| <= 32
  {
    if bits == [] then 0
    else Xor(Place(bits[0], k), Pack(bits[1..], k + 1))
  }

  lemma StepOfZero()
    ensures Step(0) == 0 && !Odd(0)
  {
  }

  /** A window above the lowest position moves down one place in a step. */
  lemma {:induction false} StepOfPack(bits: seq<bool>, k: nat)
    requires 0 < k && k + |bits| <= 32
    ensures Step(Pack(bits, k)) == Pack(bits, k - 1) && !Odd(Pack(bits, k))
    decreases |bits|
  {
    hide Step, Xor, Odd, Place;
    StepOfZero();
    if bits != [] {
      var first := Place(bits[0], k);
      StepOfPlace(bits[0], k);
      StepOfPack(bits[1..], k + 1);
      StepIsLinear(first, Pack(bits[1..], k + 1));
      OddOfXor(first, Pack(bits[1..], k + 1));
    }
  }

  /** Feeding up to 32 bits is stepping the register with all of them mixed in at once. */
  lemma {:induction false} FeedWindow(crc: bv32, bits: seq<bool>)
    requires |bits| <= 32
    ensures FeedBits(crc, bits) == Steps(Xor(crc, Pack(bits, 0)), |bits|)
    decreases |bits|
  {
    hide FeedBit, Step, Xor, Place, Bit;
    if bits == [] {
      XorZero(crc);
    } else {
      LowestPlace(bits[0]);
      var first, rest := Bit(bits[0]), Pack(bits[1..], 1);
      assert Pack(bits, 0) == Xor(first, rest);
      FeedWindow(FeedBit(crc, bits[0]), bits[1..]);
      StepOfPack(bits[1..], 1);
      FeedBitIsStep(crc, bits[0]);
      StepIsLinear(crc, Xor(first, rest));
      StepIsLinear(first, rest);
      XorAssoc(Step(crc), Step(first), Step(rest));
    }
  }

  lemma {:induction false} PackIsInjective(a: seq<bool>, b: seq<bool>)
    requires |a| == |b| <= 32 && Pack(a, 0) == Pack(b, 0)
    ensures a == b
    decreases |a|
  {
    hide Step, Xor, Odd, Place, Bit;
    if a != [] {
      LowestPlace(a[0]);
      LowestPlace(b[0]);
      var p, q := Pack(a[1..], 1), Pack(b[1..], 1);
      assert Pack(a, 0) == Xor(Bit(a[0]), p) && Pack(b, 0) == Xor(Bit(b[0]), q);
      hide Pack;
      StepOfPack(a[1..], 1);
      StepOfPack(b[1..], 1);
      OddOfXor(Bit(a[0]), p);
      OddOfXor(Bit(b[0]), q);
      XorCancel(p, q, Bit(a[0]));
      PackIsInjective(a[1..], b[1..]);
      assert a == [a[0]] + a[1..] && b == [b[0]] + b[1..];
    }
  }

  lemma {:induction false} FeedBitsOfConcat(crc: bv32, a: seq<bool>, b: seq<bool>)
    ensures FeedBits(crc, a + b) == FeedBits(FeedBits(crc, a), b)
    decreases |a|
  {
    if a == [] {
      assert a + b == b;
    } else {
      assert (a + b)[1..] == a[1..] + b;
      FeedBitsOfConcat(FeedBit(crc, a[0]), a[1..], b);
    }
  }

  lemma FeedBitIsInjective(s: bv32, t: bv32, bit: bool)
    requires FeedBit(s, bit) == FeedBit(t, bit)
    ensures s == t
  {
    hide Step, Xor, FeedBit;
    FeedBitIsStep(s, bit);
    FeedBitIsStep(t, bit);
    XorCancel(Step(s), Step(t), Step(Bit(bit)));
    StepIsInjective(s, t);
  }

  /** The register is injective in its state, whatever bits follow. */
  lemma {:induction false} FeedIsInjectiveInState(s: bv32, t: bv32, bits: seq<bool>)
    requires FeedBits(s, bits) == FeedBits(t, bits)
    ensures s == t
    decreases |bits|
  {
    hide FeedBit;
    if bits != [] {
      FeedIsInjectiveInState(FeedBit(s, bits[0]), FeedBit(t, bits[0]), bits[1..]);
      FeedBitIsInjective(s, t, bits[0]);
    }
  }

  /** From any state, a window of up to 32 bits is injective. */
  lemma WindowIsInjective(crc: bv32, a: seq<bool>, b: seq<bool>)
    requires |a| == |b| <= 32 && FeedBits(crc, a) == FeedBits(crc, b)
    ensures a == b
  {
    hide Xor, Pack, Steps, FeedBits;
    FeedWindow(crc, a);
    FeedWindow(crc, b);
    StepsIsInjective(Xor(crc, Pack(a, 0)), Xor(crc, Pack(b, 0)), |a|);
    XorCancel(Pack(a, 0), Pack(b, 0), crc);
    PackIsInjective(a, b);
  }

  /** Two messages that differ, but only inside a window of 32 bits, leave different registers. */
  lemma BurstIsDetected(crc: bv32, pre: seq<bool>, a: seq<bool>, b: seq<bool>, post: seq<bool>)
    requires |a| == |b| <= 32 && a != b
    ensures FeedBits(crc, pre + a + post) != FeedBits(crc, pre + b + post)
  {
    FeedBitsOfConcat(crc, pre + a, post);
    FeedBitsOfConcat(crc, pre + b, post);
    FeedBitsOfConcat(crc, pre, a);
    FeedBitsOfConcat(crc, pre, b);
    if FeedBits(crc, pre + a + post) == FeedBits(crc, pre + b + post) {
      FeedIsInjectiveInState(FeedBits(crc, pre + a), FeedBits(crc, pre + b), post);
      WindowIsInjective(FeedBits(crc, pre), a, b);
    }
  }

  // ---------------------------------------------------------------- the hash

  /** A `char` promoted to the width of the register; whether it is signed depends on the platform. */
  function Promote(c: bv8, signedChar: bool): bv32 {
    if signedChar && c & 0x80 != 0 then (c as bv32) | 0xffffff00 else c as bv32
  }

  lemma PackOfByte(b: bv8)
    ensures Pack(BitsOf(b), 0) == b as bv32
  {
    hide Xor, Pack, Place;
    ByteOfBits(b);
    PackOfEight(BitsOf(b));
  }

  lemma PackOfEight(bits: seq<bool>)
    requires |bits| == 8
    ensures Pack(bits, 0) ==
            Xor(Place(bits[0], 0), Xor(Place(bits[1], 1),
            Xor(Place(bits[2], 2), Xor(Place(bits[3], 3),
            Xor(Place(bits[4], 4), Xor(Place(bits[5], 5),
            Xor(Place(bits[6], 6), Xor(Place(bits[7], 7), 0))))))))
  {
    hide Xor, Place;
    assert bits[1..][1..] == bits[2..] && bits[2..][1..] == bits[3..] && bits[3..][1..] == bits[4..];
    assert bits[4..][1..] == bits[5..] && bits[5..][1..] == bits[6..] && bits[6..][1..] == bits[7..];
    assert bits[7..][1..] == bits[8..];
    assert Pack(bits[7..], 7) == Xor(Place(bits[7], 7), Pack(bits[8..], 8));
    assert Pack(bits[6..], 6) == Xor(Place(bits[6], 6), Xor(Place(bits[7], 7), 0));
    assert Pack(bits[4..], 4) == Xor(Place(bits[4], 4), Xor(Place(bits[5], 5), Pack(bits[6..], 6)));
    assert Pack(bits[2..], 2) == Xor(Place(bits[2], 2), Xor(Place(bits[3], 3), Pack(bits[4..], 4)));
  }

  lemma ByteOfBits(b: bv8)
    ensures Xor(Place(b & 1 != 0, 0), Xor(Place(b & 2 != 0, 1),
            Xor(Place(b & 4 != 0, 2), Xor(Place(b & 8 != 0, 3),
            Xor(Place(b & 16 != 0, 4), Xor(Place(b & 32 != 0, 5),
            Xor(Place(b & 64 != 0, 6), Xor(Place(b & 128 != 0, 7), 0))))))))
            == b as bv32
  {
  }

  /** Only the low byte of the promoted character is looked up. */
  lemma PromotionIsMasked(crc: bv32, b: bv8, signedChar: bool)
    ensures (crc ^ Promote(b, signedChar)) & 0xff == Xor(crc, b as bv32) & 0xff
  {
  }

  lemma UpperAndLower(x: bv32)
    ensures Xor(x & 0xffffff00, x & 0xff) == x
    ensures (x & 0xffffff00) & 0xff == 0
  {
  }

  lemma ByteLeavesUpper(crc: bv32, b: bv8)
    ensures (Xor(crc, b as bv32) & 0xffffff00) >> 8 == crc >> 8
  {
  }

  /** A table lookup feeds the register the eight bits of the character, signed or not. */
  lemma LookupFeedsByte(crc: bv32, b: bv8, signedChar: bool)
    ensures Xor(crc >> 8, Entry((crc ^ Promote(b, signedChar)) & 0xff)) == FeedBits(crc, BitsOf(b))
  {
    hide Entry, Promote, Step8, FeedBits, BitsOf, Pack, Steps, Xor;
    var x := Xor(crc, b as bv32);
    var looked := Entry((crc ^ Promote(b, signedChar)) & 0xff);
    assert FeedBits(crc, BitsOf(b)) == Step8(x) by {
      PackOfByte(b);
      assert |BitsOf(b)| == 8 by { BitsOfLength(b); }
      FeedWindow(crc, BitsOf(b));
      StepsOfByte(x);
    }
    assert Step8(x) == Xor(Step8(x & 0xffffff00), Step8(x & 0xff)) by {
      UpperAndLower(x);
      Step8IsLinear(x & 0xffffff00, x & 0xff);
    }
    assert Step8(x & 0xffffff00) == crc >> 8 by {
      UpperAndLower(x);
      Step8OfUpper(x & 0xffffff00);
      ByteLeavesUpper(crc, b);
    }
    assert looked == Step8(x & 0xff) by {
      PromotionIsMasked(crc, b, signedChar);
      TableIsEightSteps(x & 0xff);
    }
  }

  lemma BitsOfLength(b: bv8)
    ensures |BitsOf(b)| == 8
  {
  }

  lemma StepsOfByte(c: bv32)
    ensures Steps(c, 8) == Step8(c)
  {
    hide Step;
  }

  lemma {:induction false} MessageOfConcat(a: Str, b: Str)
    ensures Message(a + b) == Message(a) + Message(b)
    decreases |a|
  {
    hide BitsOf;
    if a == [] {
      assert a + b == b;
    } else {
      assert (a + b)[1..] == a[1..] + b && (a + b)[0] == a[0];
      MessageFirst(a);
      MessageFirst(a + b);
      hide Message;
      MessageOfConcat(a[1..], b);
      assert Message(a + b) == BitsOf(a[0]) + (Message(a[1..]) + Message(b));
    }
  }

  lemma MessageFirst(str: Str)
    requires str != []
    ensures Message(str) == BitsOf(str[0]) + Message(str[1..])
  {
    hide BitsOf;
  }

  /** `HashStr`: the loop over the characters of the string. */
  method HashStr(str: Str, signedChar: bool) returns (hash: bv32)
    ensures hash == CrcOf(str)
  {
    hide Entry, Promote, FeedBit, BitsOf, Xor;
    var crc := ALL_ONES;
    for i := 0 to |str|
      invariant crc == FeedBits(ALL_ONES, Message(str[..i]))
    {
      LookupFeedsByte(crc, str[i], signedChar);
      assert str[..i + 1] == str[..i] + [str[i]];
      MessageOfConcat(str[..i], [str[i]]);
      assert Message([str[i]]) == BitsOf(str[i]);
      FeedBitsOfConcat(ALL_ONES, Message(str[..i]), BitsOf(str[i]));
      crc := Xor(crc >> 8, Entry((crc ^ Promote(str[i], signedChar)) & 0xff));
    }
    assert str[..|str|] == str;
    hash := Xor(crc, ALL_ONES);
  }

  lemma {:induction false} MessageLength(str: Str)
    ensures |Message(str)| == 8 * |str|
  {
    if str != [] {
      MessageLength(str[1..]);
    }
  }

  lemma BitsOfIsInjective(a: bv8, b: bv8)
    requires BitsOf(a) == BitsOf(b)
    ensures a == b
  {
    PackOfByte(a);
    PackOfByte(b);
  }

  lemma {:induction false} MessageIsInjective(a: Str, b: Str)
    requires |a| == |b| && Message(a) == Message(b)
    ensures a == b
    decreases |a|
  {
    if a != [] {
      assert BitsOf(a[0]) == Message(a)[..8] == Message(b)[..8] == BitsOf(b[0]);
      assert Message(a[1..]) == Message(a)[8..] == Message(b)[8..] == Message(b[1..]);
      BitsOfIsInjective(a[0], b[0]);
      MessageIsInjective(a[1..], b[1..]);
      assert a == [a[0]] + a[1..] && b == [b[0]] + b[1..];
    }
  }

  lemma MessageOfThree(a: Str, b: Str, c: Str)
    ensures Message(a + b + c) == Message(a) + Message(b) + Message(c)
  {
    hide Message;
    MessageOfConcat(a + b, c);
    MessageOfConcat(a, b);
  }

  /** The part in which two strings may differ, and what is around it. */
  lemma AroundWindow(a: Str, b: Str, at: nat, end: nat)
    requires |a| == |b| && at <= end <= |a|
    requires forall k :: 0 <= k < |a| && !(at <= k < end) ==> a[k] == b[k]
    ensures a == a[..at] + a[at..end] + a[end..] && b == a[..at] + b[at..end] + a[end..]
  {
  }

  /** Strings of equal length that differ, all within four consecutive bytes, never share a hash. */
  lemma NoCollisionWithinFourBytes(a: Str, b: Str, at: nat)
    requires |a| == |b| && a != b && at <= |a|
    requires forall k :: 0 <= k < |a| && !(at <= k < at + 4) ==> a[k] == b[k]
    ensures CrcOf(a) != CrcOf(b)
  {
    var end := if at + 4 <= |a| then at + 4 else |a|;
    var pre, mine, yours, post := a[..at], a[at..end], b[at..end], a[end..];
    AroundWindow(a, b, at, end);
    assert CrcOf(a) == Xor(FeedBits(ALL_ONES, Message(a)), ALL_ONES);
    assert CrcOf(b) == Xor(FeedBits(ALL_ONES, Message(b)), ALL_ONES);
    hide *;
    MessageOfThree(pre, mine, post);
    MessageOfThree(pre, yours, post);
    MessageLength(mine);
    MessageLength(yours);
    if Message(mine) == Message(yours) {
      MessageIsInjective(mine, yours);
    }
    BurstIsDetected(ALL_ONES, Message(pre), Message(mine), Message(yours), Message(post));
    if CrcOf(a) == CrcOf(b) {
      XorCancel(FeedBits(ALL_ONES, Message(a)), FeedBits(ALL_ONES, Message(b)), ALL_ONES);
    }
  }

  // ---------------------------------------------------------------- the constants

  function Rest(c: bv32): bv32 {
    c >> 8
  }

  function Low(c: bv32): (low: bv32)
    ensures low < 256
  {
    c & 0xff
  }

  function Wide(b: bv8): bv32 {
    b as bv32
  }

  /** The register after a byte, by the table. */
  function FeedByte(c: bv32, b: bv8): bv32 {
    Xor(Rest(c), Entry(Low(Xor(c, Wide(b)))))
  }

  lemma FeedByteIs(c: bv32, b: bv8)
    ensures FeedBits(c, BitsOf(b)) == FeedByte(c, b)
  {
    hide Entry, FeedBits, BitsOf;
    LookupFeedsByte(c, b, false);
    PromotionIsMasked(c, b, false);
    hide Xor, Promote;
  }

  lemma {:induction false} FeedMore(c: bv32, str: Str, b: bv8)
    ensures FeedBits(c, Message(str + [b])) == FeedByte(FeedBits(c, Message(str)), b)
  {
    MessageOfConcat(str, [b]);
    assert Message([b]) == BitsOf(b);
    hide Message, BitsOf, FeedByte, FeedBits;
    FeedBitsOfConcat(c, Message(str), BitsOf(b));
    FeedByteIs(FeedBits(c, Message(str)), b);
  }

  /** The four bytes of a word, low byte first. */
  function WordBytes(x: bv32): (bytes: Str)
    ensures |bytes| == 4
  {
    [(x & 0xff) as bv8, ((x >> 8) & 0xff) as bv8, ((x >> 16) & 0xff) as bv8, ((x >> 24) & 0xff) as bv8]
  }

  /** The register that is left when a message is followed by its own CRC. */
  const RESIDUE: bv32 := 0xdebb20e3

  lemma LowOfComplement(t: bv32, k: bv32)
    ensures Low(Xor(Xor(t, k), Low(Xor(t, ALL_ONES)))) == Low(Xor(k, 0xff))
  {
  }

  lemma RestByHalves(c: bv32)
    ensures Rest(c) == Quarter(Quarter(Quarter(Quarter(c))))
  {
  }

  function Quarter(c: bv32): bv32 {
    Half(Half(c))
  }

  lemma QuarterOfXor(t: bv32, k: bv32)
    ensures Quarter(Xor(t, k)) == Xor(Quarter(t), Quarter(k))
  {
    hide Xor, Half;
    ShiftOfXor(t, k);
    ShiftOfXor(Half(t), Half(k));
  }

  lemma RestOfXor(t: bv32, k: bv32)
    ensures Rest(Xor(t, k)) == Xor(Rest(t), Rest(k))
  {
    RestByHalves(t);
    RestByHalves(k);
    RestByHalves(Xor(t, k));
    hide Xor, Quarter, Rest;
    QuarterOfXor(t, k);
    QuarterOfXor(Quarter(t), Quarter(k));
    QuarterOfXor(Quarter(Quarter(t)), Quarter(Quarter(k)));
    QuarterOfXor(Quarter(Quarter(Quarter(t))), Quarter(Quarter(Quarter(k))));
  }

  /** Feeding a byte of the complement of what is left of a state leaves a constant beside the rest of it. */
  lemma ResidueStep(t: bv32, k: bv32, b: bv8)
    requires Wide(b) == Low(Xor(t, ALL_ONES))
    ensures FeedByte(Xor(t, k), b) == Xor(Rest(t), Xor(Rest(k), Entry(Low(Xor(k, 0xff)))))
  {
    hide Entry, Xor, Rest, Low, Wide;
    LowOfComplement(t, k);
    RestOfXor(t, k);
    XorAssoc(Rest(t), Rest(k), Entry(Low(Xor(k, 0xff))));
  }

  lemma LowByteOfComplement(s: bv32)
    ensures Wide(WordBytes(Xor(s, ALL_ONES))[0]) == Low(Xor(s, ALL_ONES))
    ensures Wide(WordBytes(Xor(s, ALL_ONES))[1]) == Low(Xor(Rest(s), ALL_ONES))
  {
  }

  lemma HighByteOfComplement(s: bv32)
    ensures Wide(WordBytes(Xor(s, ALL_ONES))[2]) == Low(Xor(Rest(Rest(s)), ALL_ONES))
    ensures Wide(WordBytes(Xor(s, ALL_ONES))[3]) == Low(Xor(Rest(Rest(Rest(s))), ALL_ONES))
  {
  }

  lemma ResidueConstants()
    ensures Xor(Rest(0), Entry(Low(Xor(0, 0xff)))) == 0x2d02ef8d
    ensures Xor(Rest(0x2d02ef8d), Entry(Low(Xor(0x2d02ef8d, 0xff)))) == 0xbe2612ff
    ensures Xor(Rest(0xbe2612ff), Entry(Low(Xor(0xbe2612ff, 0xff)))) == 0x00be2612
    ensures Xor(Rest(0x00be2612), Entry(Low(Xor(0x00be2612, 0xff)))) == RESIDUE
  {
  }

  lemma NothingLeft(s: bv32)
    ensures Rest(Rest(Rest(Rest(s)))) == 0 && Xor(s, 0) == s && Xor(0, s) == s
  {
  }

  /** The bytes of the complement of a state, fed to it, lead to the residue from every state. */
  lemma StateToResidue(s: bv32)
    ensures var x := WordBytes(Xor(s, ALL_ONES));
            FeedByte(FeedByte(FeedByte(FeedByte(s, x[0]), x[1]), x[2]), x[3]) == RESIDUE
  {
    var x := WordBytes(Xor(s, ALL_ONES));
    hide *;
    LowByteOfComplement(s);
    HighByteOfComplement(s);
    ResidueConstants();
    NothingLeft(s);
    NothingLeft(RESIDUE);
    ResidueStep(s, 0, x[0]);
    ResidueStep(Rest(s), 0x2d02ef8d, x[1]);
    ResidueStep(Rest(Rest(s)), 0xbe2612ff, x[2]);
    ResidueStep(Rest(Rest(Rest(s))), 0x00be2612, x[3]);
  }

  /** A string followed by its hash, low byte first, always leaves the same register: the residue by which
      receivers of this CRC tell that a message has arrived. */
  lemma HashLeavesResidue(str: Str)
    ensures FeedBits(ALL_ONES, Message(str + WordBytes(CrcOf(str)))) == RESIDUE
  {
    var s, x := FeedBits(ALL_ONES, Message(str)), WordBytes(CrcOf(str));
    StateToResidue(s);
    assert x == [x[0], x[1], x[2], x[3]];
    hide WordBytes, FeedByte, FeedBits, Message, Xor;
    assert str + x == str + [x[0]] + [x[1]] + [x[2]] + [x[3]];
    FeedMore(ALL_ONES, str, x[0]);
    FeedMore(ALL_ONES, str + [x[0]], x[1]);
    FeedMore(ALL_ONES, str + [x[0]] + [x[1]], x[2]);
    FeedMore(ALL_ONES, str + [x[0]] + [x[1]] + [x[2]], x[3]);
  }

  lemma CheckFirstBytes()
    ensures FeedByte(0xffffffff, 0x31) == 0x7c231048
    ensures FeedByte(0x7c231048, 0x32) == 0xb0acbb32
    ensures FeedByte(0xb0acbb32, 0x33) == 0x77b79c2d
  {
  }

  lemma CheckMiddleBytes()
    ensures FeedByte(0x77b79c2d, 0x34) == 0x641c1f5c
    ensures FeedByte(0x641c1f5c, 0x35) == 0x340ac5e3
    ensures FeedByte(0x340ac5e3, 0x36) == 0xf68d2c9e
  {
  }

  lemma CheckLastBytes()
    ensures FeedByte(0xf68d2c9e, 0x37) == 0xaffc9660
    ensures FeedByte(0xaffc9660, 0x38) == 0x651f2550
    ensures FeedByte(0x651f2550, 0x39) == 0x340bc6d9
  {
  }

  /** The check value of this CRC: the hash of "123456789"; the hash of the empty string is 0. */
  lemma CheckValue()
    ensures CrcOf([0x31, 0x32, 0x33, 0x34, 0x35, 0x36, 0x37, 0x38, 0x39]) == 0xcbf43926
    ensures CrcOf([]) == 0
  {
    var str: Str := [0x31, 0x32, 0x33, 0x34, 0x35, 0x36, 0x37, 0x38, 0x39];
    hide FeedByte, FeedBit, FeedBits, Register, Message, Xor;
    CheckFirstBytes();
    CheckMiddleBytes();
    CheckLastBytes();
    FedUpTo(str, 9);
    FedUpTo([], 0);
    assert str[..9] == str;
    RegisterStart(str);
    RegisterStart([]);
    RegisterNext(str, 0);
    RegisterNext(str, 1);
    RegisterNext(str, 2);
    RegisterNext(str, 3);
    RegisterNext(str, 4);
    RegisterNext(str, 5);
    RegisterNext(str, 6);
    RegisterNext(str, 7);
    RegisterNext(str, 8);
    Complements();
  }

  lemma Complements()
    ensures Xor(0x340bc6d9, ALL_ONES) == 0xcbf43926 && Xor(ALL_ONES, ALL_ONES) == 0
  {
  }

  /** The register after the first `n` bytes. */
  function Register(str: Str, n: nat): bv32
    requires n <= |str|
  {
    if n == 0 then ALL_ONES else FeedByte(Register(str, n - 1), str[n - 1])
  }

  lemma RegisterStart(str: Str)
    ensures Register(str, 0) == ALL_ONES
  {
  }

  lemma RegisterNext(str: Str, n: nat)
    requires n < |str|
    ensures Register(str, n + 1) == FeedByte(Register(str, n), str[n])
  {
  }

  lemma {:induction false} FedUpTo(str: Str, n: nat)
    requires n <= |str|
    ensures FeedBits(ALL_ONES, Message(str[..n])) == Register(str, n)
  {
    hide FeedByte, FeedBit, BitsOf;
    if n > 0 {
      FedUpTo(str, n - 1);
      assert str[..n] == str[..n - 1] + [str[n - 1]];
      FeedMore(ALL_ONES, str[..n - 1], str[n - 1]);
    }
  }
}
