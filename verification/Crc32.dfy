/** The CRC-32 of 16_crc32/main.c: a table of 256 words, applied to a file mapped in chunks. */
module Crc32 {

  // ------------------------------------------------- the bitwise definition

  /** The generator polynomial, reflected (section 8.1.1.6.2 of ITU-T V.42). */
  const POLY: bv32 := 0xEDB88320

  /** One step of reflected polynomial division. */
  function Shift(r: bv32): bv32 {
    if r & 1 == 1 then (r >> 1) ^ POLY else r >> 1
  }

  function Shift2(r: bv32): bv32 {
    Shift(Shift(r))
  }

  function Shift4(r: bv32): bv32 {
    Shift2(Shift2(r))
  }

  function Shift8(r: bv32): bv32 {
    Shift4(Shift4(r))
  }

  /** The register after one more byte (section 8 of RFC 1952). */
  function ByteStep(r: bv32, b: bv8): bv32 {
    Shift8(Xor(r, b as bv32))
  }

  function Register(data: seq<bv8>, r: bv32): bv32 {
    if data == [] then r else ByteStep(Register(data[..|data| - 1], r), data[|data| - 1])
  }

  const ALL_ONES: bv32 := 0xFFFF_FFFF

  /** The CRC of a file. */
  function Crc(data: seq<bv8>): bv32 {
    Register(data, ALL_ONES) ^ ALL_ONES
  }

  lemma {:induction false} RegisterConcat(a: seq<bv8>, b: seq<bv8>, r: bv32)
    ensures Register(a + b, r) == Register(b, Register(a, r))
  {
    hide ByteStep;
    if b == [] {
      assert a + b == a;
    } else {
      RegisterConcat(a, b[..|b| - 1], r);
      assert (a + b)[..|a + b| - 1] == a + b[..|b| - 1];
    }
  }

  // ------------------------------------------------------- exclusive-or facts

  function Xor(a: bv32, b: bv32): bv32 {
    a ^ b
  }

  lemma LowXor(a: bv32, b: bv32)
    ensures (a ^ b) & 1 == (a & 1) ^ (b & 1)
  {
  }

  lemma ShrXor(a: bv32, b: bv32)
    ensures (a ^ b) >> 1 == (a >> 1) ^ (b >> 1)
  {
  }

  lemma LowIsBit(a: bv32)
    ensures a & 1 == 0 || a & 1 == 1
  {
  }

  lemma XorMove(x: bv32, y: bv32, p: bv32)
    ensures (x ^ y) ^ p == (x ^ p) ^ y
    ensures x ^ y == (x ^ p) ^ (y ^ p)
  {
  }

  lemma ShiftXor(a: bv32, b: bv32)
    ensures Shift(a ^ b) == Shift(a) ^ Shift(b)
  {
    LowXor(a, b);
    ShrXor(a, b);
    LowIsBit(a);
    LowIsBit(b);
    XorMove(a >> 1, b >> 1, POLY);
    XorMove(b >> 1, a >> 1, POLY);
  }

  lemma ShiftLinear(a: bv32, b: bv32)
    ensures Shift(Xor(a, b)) == Xor(Shift(a), Shift(b))
  {
    hide Shift;
    ShiftXor(a, b);
  }

  lemma Shift2Linear(a: bv32, b: bv32)
    ensures Shift2(Xor(a, b)) == Xor(Shift2(a), Shift2(b))
  {
    hide Xor, Shift;
    ShiftLinear(a, b);
    ShiftLinear(Shift(a), Shift(b));
  }

  lemma Shift4Linear(a: bv32, b: bv32)
    ensures Shift4(Xor(a, b)) == Xor(Shift4(a), Shift4(b))
  {
    hide Xor, Shift2;
    Shift2Linear(a, b);
    Shift2Linear(Shift2(a), Shift2(b));
  }

  lemma Shift8Linear(a: bv32, b: bv32)
    ensures Shift8(Xor(a, b)) == Xor(Shift8(a), Shift8(b))
  {
    hide Xor, Shift4;
    Shift4Linear(a, b);
    Shift4Linear(Shift4(a), Shift4(b));
  }

  lemma ShiftEven(a: bv32)
    ensures (a & 1 == 0) ==> Shift(a) == a >> 1
  {
  }

  /** Eight steps on a register whose low byte is zero only move it. */
  lemma Shift8High(a: bv32)
    requires a & 0xFF == 0
    ensures Shift8(a) == a >> 8
  {
    hide Shift;
    var a1 := a >> 1;
    var a2 := a1 >> 1;
    var a3 := a2 >> 1;
    var a4 := a3 >> 1;
    var a5 := a4 >> 1;
    var a6 := a5 >> 1;
    var a7 := a6 >> 1;
    ShiftEven(a);
    ShiftEven(a1);
    ShiftEven(a2);
    ShiftEven(a3);
    ShiftEven(a4);
    ShiftEven(a5);
    ShiftEven(a6);
    ShiftEven(a7);
    LowBitsZero(a);
  }

  lemma LowBitsZero(a: bv32)
    requires a & 0xFF == 0
    ensures a & 1 == 0 && (a >> 1) & 1 == 0 && ((a >> 1) >> 1) & 1 == 0 && (((a >> 1) >> 1) >> 1) & 1 == 0
    ensures ((((a >> 1) >> 1) >> 1) >> 1) & 1 == 0 && (((((a >> 1) >> 1) >> 1) >> 1) >> 1) & 1 == 0
    ensures ((((((a >> 1) >> 1) >> 1) >> 1) >> 1) >> 1) & 1 == 0
    ensures (((((((a >> 1) >> 1) >> 1) >> 1) >> 1) >> 1) >> 1) & 1 == 0
    ensures (((((((a >> 1) >> 1) >> 1) >> 1) >> 1) >> 1) >> 1) >> 1 == a >> 8
  {
  }

  lemma SplitLowByte(x: bv32)
    ensures x == Xor(x & 0xFF, x & 0xFFFF_FF00)
    ensures (x & 0xFFFF_FF00) & 0xFF == 0 && (x & 0xFFFF_FF00) >> 8 == x >> 8
  {
  }

  lemma Shift8OfSum(x: bv32, lo: bv32, hi: bv32)
    requires x == Xor(lo, hi) && hi & 0xFF == 0
    ensures Shift8(x) == Xor(Shift8(lo), hi >> 8)
  {
    hide Shift8, Xor;
    Shift8Linear(lo, hi);
    Shift8High(hi);
  }

  /** Eight steps divide the low byte out and bring the other three down. */
  lemma Shift8Splits(x: bv32)
    ensures Shift8(x) == Xor(Shift8(x & 0xFF), x >> 8)
  {
    hide Shift8, Xor;
    SplitLowByte(x);
    Shift8OfSum(x, x & 0xFF, x & 0xFFFF_FF00);
  }

  // ------------------------------------------------------------- the table

  function Row0(j: bv4): bv32 {
    if j == 0 then 0x00000000 else if j == 1 then 0x77073096 else if j == 2 then 0xee0e612c else
    if j == 3 then 0x990951ba else if j == 4 then 0x076dc419 else if j == 5 then 0x706af48f else
    if j == 6 then 0xe963a535 else if j == 7 then 0x9e6495a3 else if j == 8 then 0x0edb8832 else
    if j == 9 then 0x79dcb8a4 else if j == 10 then 0xe0d5e91e else if j == 11 then 0x97d2d988 else
    if j == 12 then 0x09b64c2b else if j == 13 then 0x7eb17cbd else if j == 14 then 0xe7b82d07 else 0x90bf1d91
  }

  function Row1(j: bv4): bv32 {
    if j == 0 then 0x1db71064 else if j == 1 then 0x6ab020f2 else if j == 2 then 0xf3b97148 else
    if j == 3 then 0x84be41de else if j == 4 then 0x1adad47d else if j == 5 then 0x6ddde4eb else
    if j == 6 then 0xf4d4b551 else if j == 7 then 0x83d385c7 else if j == 8 then 0x136c9856 else
    if j == 9 then 0x646ba8c0 else if j == 10 then 0xfd62f97a else if j == 11 then 0x8a65c9ec else
    if j == 12 then 0x14015c4f else if j == 13 then 0x63066cd9 else if j == 14 then 0xfa0f3d63 else 0x8d080df5
  }

  function Row2(j: bv4): bv32 {
    if j == 0 then 0x3b6e20c8 else if j == 1 then 0x4c69105e else if j == 2 then 0xd56041e4 else
    if j == 3 then 0xa2677172 else if j == 4 then 0x3c03e4d1 else if j == 5 then 0x4b04d447 else
    if j == 6 then 0xd20d85fd else if j == 7 then 0xa50ab56b else if j == 8 then 0x35b5a8fa else
    if j == 9 then 0x42b2986c else if j == 10 then 0xdbbbc9d6 else if j == 11 then 0xacbcf940 else
    if j == 12 then 0x32d86ce3 else if j == 13 then 0x45df5c75 else if j == 14 then 0xdcd60dcf else 0xabd13d59
  }

  function Row3(j: bv4): bv32 {
    if j == 0 then 0x26d930ac else if j == 1 then 0x51de003a else if j == 2 then 0xc8d75180 else
    if j == 3 then 0xbfd06116 else if j == 4 then 0x21b4f4b5 else if j == 5 then 0x56b3c423 else
    if j == 6 then 0xcfba9599 else if j == 7 then 0xb8bda50f else if j == 8 then 0x2802b89e else
    if j == 9 then 0x5f058808 else if j == 10 then 0xc60cd9b2 else if j == 11 then 0xb10be924 else
    if j == 12 then 0x2f6f7c87 else if j == 13 then 0x58684c11 else if j == 14 then 0xc1611dab else 0xb6662d3d
  }

  function Row4(j: bv4): bv32 {
    if j == 0 then 0x76dc4190 else if j == 1 then 0x01db7106 else if j == 2 then 0x98d220bc else
    if j == 3 then 0xefd5102a else if j == 4 then 0x71b18589 else if j == 5 then 0x06b6b51f else
    if j == 6 then 0x9fbfe4a5 else if j == 7 then 0xe8b8d433 else if j == 8 then 0x7807c9a2 else
    if j == 9 then 0x0f00f934 else if j == 10 then 0x9609a88e else if j == 11 then 0xe10e9818 else
    if j == 12 then 0x7f6a0dbb else if j == 13 then 0x086d3d2d else if j == 14 then 0x91646c97 else 0xe6635c01
  }

  function Row5(j: bv4): bv32 {
    if j == 0 then 0x6b6b51f4 else if j == 1 then 0x1c6c6162 else if j == 2 then 0x856530d8 else
    if j == 3 then 0xf262004e else if j == 4 then 0x6c0695ed else if j == 5 then 0x1b01a57b else
    if j == 6 then 0x8208f4c1 else if j == 7 then 0xf50fc457 else if j == 8 then 0x65b0d9c6 else
    if j == 9 then 0x12b7e950 else if j == 10 then 0x8bbeb8ea else if j == 11 then 0xfcb9887c else
    if j == 12 then 0x62dd1ddf else if j == 13 then 0x15da2d49 else if j == 14 then 0x8cd37cf3 else 0xfbd44c65
  }

  function Row6(j: bv4): bv32 {
    if j == 0 then 0x4db26158 else if j == 1 then 0x3ab551ce else if j == 2 then 0xa3bc0074 else
    if j == 3 then 0xd4bb30e2 else if j == 4 then 0x4adfa541 else if j == 5 then 0x3dd895d7 else
    if j == 6 then 0xa4d1c46d else if j == 7 then 0xd3d6f4fb else if j == 8 then 0x4369e96a else
    if j == 9 then 0x346ed9fc else if j == 10 then 0xad678846 else if j == 11 then 0xda60b8d0 else
    if j == 12 then 0x44042d73 else if j == 13 then 0x33031de5 else if j == 14 then 0xaa0a4c5f else 0xdd0d7cc9
  }

  function Row7(j: bv4): bv32 {
    if j == 0 then 0x5005713c else if j == 1 then 0x270241aa else if j == 2 then 0xbe0b1010 else
    if j == 3 then 0xc90c2086 else if j == 4 then 0x5768b525 else if j == 5 then 0x206f85b3 else
    if j == 6 then 0xb966d409 else if j == 7 then 0xce61e49f else if j == 8 then 0x5edef90e else
    if j == 9 then 0x29d9c998 else if j == 10 then 0xb0d09822 else if j == 11 then 0xc7d7a8b4 else
    if j == 12 then 0x59b33d17 else if j == 13 then 0x2eb40d81 else if j == 14 then 0xb7bd5c3b else 0xc0ba6cad
  }

  function Row8(j: bv4): bv32 {
    if j == 0 then 0xedb88320 else if j == 1 then 0x9abfb3b6 else if j == 2 then 0x03b6e20c else
    if j == 3 then 0x74b1d29a else if j == 4 then 0xead54739 else if j == 5 then 0x9dd277af else
    if j == 6 then 0x04db2615 else if j == 7 then 0x73dc1683 else if j == 8 then 0xe3630b12 else
    if j == 9 then 0x94643b84 else if j == 10 then 0x0d6d6a3e else if j == 11 then 0x7a6a5aa8 else
    if j == 12 then 0xe40ecf0b else if j == 13 then 0x9309ff9d else if j == 14 then 0x0a00ae27 else 0x7d079eb1
  }

  function Row9(j: bv4): bv32 {
    if j == 0 then 0xf00f9344 else if j == 1 then 0x8708a3d2 else if j == 2 then 0x1e01f268 else
    if j == 3 then 0x6906c2fe else if j == 4 then 0xf762575d else if j == 5 then 0x806567cb else
    if j == 6 then 0x196c3671 else if j == 7 then 0x6e6b06e7 else if j == 8 then 0xfed41b76 else
    if j == 9 then 0x89d32be0 else if j == 10 then 0x10da7a5a else if j == 11 then 0x67dd4acc else
    if j == 12 then 0xf9b9df6f else if j == 13 then 0x8ebeeff9 else if j == 14 then 0x17b7be43 else 0x60b08ed5
  }

  function RowA(j: bv4): bv32 {
    if j == 0 then 0xd6d6a3e8 else if j == 1 then 0xa1d1937e else if j == 2 then 0x38d8c2c4 else
    if j == 3 then 0x4fdff252 else if j == 4 then 0xd1bb67f1 else if j == 5 then 0xa6bc5767 else
    if j == 6 then 0x3fb506dd else if j == 7 then 0x48b2364b else if j == 8 then 0xd80d2bda else
    if j == 9 then 0xaf0a1b4c else if j == 10 then 0x36034af6 else if j == 11 then 0x41047a60 else
    if j == 12 then 0xdf60efc3 else if j == 13 then 0xa867df55 else if j == 14 then 0x316e8eef else 0x4669be79
  }

  function RowB(j: bv4): bv32 {
    if j == 0 then 0xcb61b38c else if j == 1 then 0xbc66831a else if j == 2 then 0x256fd2a0 else
    if j == 3 then 0x5268e236 else if j == 4 then 0xcc0c7795 else if j == 5 then 0xbb0b4703 else
    if j == 6 then 0x220216b9 else if j == 7 then 0x5505262f else if j == 8 then 0xc5ba3bbe else
    if j == 9 then 0xb2bd0b28 else if j == 10 then 0x2bb45a92 else if j == 11 then 0x5cb36a04 else
    if j == 12 then 0xc2d7ffa7 else if j == 13 then 0xb5d0cf31 else if j == 14 then 0x2cd99e8b else 0x5bdeae1d
  }

  function RowC(j: bv4): bv32 {
    if j == 0 then 0x9b64c2b0 else if j == 1 then 0xec63f226 else if j == 2 then 0x756aa39c else
    if j == 3 then 0x026d930a else if j == 4 then 0x9c0906a9 else if j == 5 then 0xeb0e363f else
    if j == 6 then 0x72076785 else if j == 7 then 0x05005713 else if j == 8 then 0x95bf4a82 else
    if j == 9 then 0xe2b87a14 else if j == 10 then 0x7bb12bae else if j == 11 then 0x0cb61b38 else
    if j == 12 then 0x92d28e9b else if j == 13 then 0xe5d5be0d else if j == 14 then 0x7cdcefb7 else 0x0bdbdf21
  }

  function RowD(j: bv4): bv32 {
    if j == 0 then 0x86d3d2d4 else if j == 1 then 0xf1d4e242 else if j == 2 then 0x68ddb3f8 else
    if j == 3 then 0x1fda836e else if j == 4 then 0x81be16cd else if j == 5 then 0xf6b9265b else
    if j == 6 then 0x6fb077e1 else if j == 7 then 0x18b74777 else if j == 8 then 0x88085ae6 else
    if j == 9 then 0xff0f6a70 else if j == 10 then 0x66063bca else if j == 11 then 0x11010b5c else
    if j == 12 then 0x8f659eff else if j == 13 then 0xf862ae69 else if j == 14 then 0x616bffd3 else 0x166ccf45
  }

  function RowE(j: bv4): bv32 {
    if j == 0 then 0xa00ae278 else if j == 1 then 0xd70dd2ee else if j == 2 then 0x4e048354 else
    if j == 3 then 0x3903b3c2 else if j == 4 then 0xa7672661 else if j == 5 then 0xd06016f7 else
    if j == 6 then 0x4969474d else if j == 7 then 0x3e6e77db else if j == 8 then 0xaed16a4a else
    if j == 9 then 0xd9d65adc else if j == 10 then 0x40df0b66 else if j == 11 then 0x37d83bf0 else
    if j == 12 then 0xa9bcae53 else if j == 13 then 0xdebb9ec5 else if j == 14 then 0x47b2cf7f else 0x30b5ffe9
  }

  function RowF(j: bv4): bv32 {
    if j == 0 then 0xbdbdf21c else if j == 1 then 0xcabac28a else if j == 2 then 0x53b39330 else
    if j == 3 then 0x24b4a3a6 else if j == 4 then 0xbad03605 else if j == 5 then 0xcdd70693 else
    if j == 6 then 0x54de5729 else if j == 7 then 0x23d967bf else if j == 8 then 0xb3667a2e else
    if j == 9 then 0xc4614ab8 else if j == 10 then 0x5d681b02 else if j == 11 then 0x2a6f2b94 else
    if j == 12 then 0xb40bbe37 else if j == 13 then 0xc30c8ea1 else if j == 14 then 0x5a05df1b else 0x2d02ef8d
  }

  function LowRows(h: bv4, j: bv4): bv32 {
    if h == 0 then Row0(j) else if h == 1 then Row1(j) else if h == 2 then Row2(j) else if h == 3 then Row3(j)
    else if h == 4 then Row4(j) else if h == 5 then Row5(j) else if h == 6 then Row6(j) else Row7(j)
  }

  function HighRows(h: bv4, j: bv4): bv32 {
    if h == 8 then Row8(j) else if h == 9 then Row9(j) else if h == 10 then RowA(j) else if h == 11 then RowB(j)
    else if h == 12 then RowC(j) else if h == 13 then RowD(j) else if h == 14 then RowE(j) else RowF(j)
  }

  /** crc32_tab, sixteen words to a row. */
  function Crc32Tab(i: bv8): bv32 {
    var h, j := (i >> 4) as bv4, (i & 15) as bv4;
    if h < 8 then LowRows(h, j) else HighRows(h, j)
  }

  lemma Row0Is(j: bv4)
    ensures Row0(j) == Shift8(0x00 | (j as bv32))
  {
  }

  lemma Row1Is(j: bv4)
    ensures Row1(j) == Shift8(0x10 | (j as bv32))
  {
  }

  lemma Row2Is(j: bv4)
    ensures Row2(j) == Shift8(0x20 | (j as bv32))
  {
  }

  lemma Row3Is(j: bv4)
    ensures Row3(j) == Shift8(0x30 | (j as bv32))
  {
  }

  lemma Row4Is(j: bv4)
    ensures Row4(j) == Shift8(0x40 | (j as bv32))
  {
  }

  lemma Row5Is(j: bv4)
    ensures Row5(j) == Shift8(0x50 | (j as bv32))
  {
  }

  lemma Row6Is(j: bv4)
    ensures Row6(j) == Shift8(0x60 | (j as bv32))
  {
  }

  lemma Row7Is(j: bv4)
    ensures Row7(j) == Shift8(0x70 | (j as bv32))
  {
  }

  lemma Row8Is(j: bv4)
    ensures Row8(j) == Shift8(0x80 | (j as bv32))
  {
  }

  lemma Row9Is(j: bv4)
    ensures Row9(j) == Shift8(0x90 | (j as bv32))
  {
  }

  lemma RowAIs(j: bv4)
    ensures RowA(j) == Shift8(0xA0 | (j as bv32))
  {
  }

  lemma RowBIs(j: bv4)
    ensures RowB(j) == Shift8(0xB0 | (j as bv32))
  {
  }

  lemma RowCIs(j: bv4)
    ensures RowC(j) == Shift8(0xC0 | (j as bv32))
  {
  }

  lemma RowDIs(j: bv4)
    ensures RowD(j) == Shift8(0xD0 | (j as bv32))
  {
  }

  lemma RowEIs(j: bv4)
    ensures RowE(j) == Shift8(0xE0 | (j as bv32))
  {
  }

  lemma RowFIs(j: bv4)
    ensures RowF(j) == Shift8(0xF0 | (j as bv32))
  {
  }

  /** The byte with two given nibbles. */
  function Joined(h: bv4, j: bv4): bv32 {
    ((h as bv32) << 4) | (j as bv32)
  }

  lemma Nibbles(i: bv8)
    ensures i as bv32 == Joined((i >> 4) as bv4, (i & 15) as bv4)
  {
  }

  lemma LowRowsAre(h: bv4, j: bv4)
    requires h < 8
    ensures LowRows(h, j) == Shift8(Joined(h, j))
  {
    hide Shift8, Row0, Row1, Row2, Row3, Row4, Row5, Row6, Row7;
    if h == 0 {
      Row0Is(j);
    } else if h == 1 {
      Row1Is(j);
    } else if h == 2 {
      Row2Is(j);
    } else if h == 3 {
      Row3Is(j);
    } else if h == 4 {
      Row4Is(j);
    } else if h == 5 {
      Row5Is(j);
    } else if h == 6 {
      Row6Is(j);
    } else {
      Row7Is(j);
    }
  }

  lemma HighRowsAre(h: bv4, j: bv4)
    requires h >= 8
    ensures HighRows(h, j) == Shift8(Joined(h, j))
  {
    hide Shift8, Row8, Row9, RowA, RowB, RowC, RowD, RowE, RowF;
    if h == 8 {
      Row8Is(j);
    } else if h == 9 {
      Row9Is(j);
    } else if h == 10 {
      RowAIs(j);
    } else if h == 11 {
      RowBIs(j);
    } else if h == 12 {
      RowCIs(j);
    } else if h == 13 {
      RowDIs(j);
    } else if h == 14 {
      RowEIs(j);
    } else {
      RowFIs(j);
    }
  }

  /** The table holds, for each byte, what eight steps of division leave. */
  lemma Crc32TabIs(i: bv8)
    ensures Crc32Tab(i) == Shift8(i as bv32)
  {
    hide Shift8, LowRows, HighRows, Joined;
    var h, j := (i >> 4) as bv4, (i & 15) as bv4;
    Nibbles(i);
    if h < 8 {
      LowRowsAre(h, j);
    } else {
      HighRowsAre(h, j);
    }
  }

  /** The update of crc32_raw. */
  function TableStep(r: bv32, b: bv8): bv32 {
    Xor(Crc32Tab((Xor(r, b as bv32) & 0xFF) as bv8), r >> 8)
  }

  lemma LowByteOfXor(r: bv32, b: bv8)
    ensures Xor(r, b as bv32) >> 8 == r >> 8
    ensures ((Xor(r, b as bv32) & 0xFF) as bv8) as bv32 == Xor(r, b as bv32) & 0xFF
  {
  }

  /** For all registers and bytes the table gives the bitwise update. */
  lemma TableStepIsByteStep(r: bv32, b: bv8)
    ensures TableStep(r, b) == ByteStep(r, b)
  {
    hide Shift8, Xor, Crc32Tab;
    var x := Xor(r, b as bv32);
    LowByteOfXor(r, b);
    Shift8Splits(x);
    Crc32TabIs((x & 0xFF) as bv8);
  }

  method Crc32Raw(buf: seq<bv8>, crc0: bv32) returns (crc: bv32)
    ensures crc == Register(buf, crc0)
  {
    hide ByteStep, Xor, Crc32Tab;
    crc := crc0;
    var p := 0;
    while p < |buf|
      invariant 0 <= p <= |buf| && crc == Register(buf[..p], crc0)
    {
      TableStepIsByteStep(crc, buf[p]);
      assert buf[..p + 1][..p] == buf[..p];
      crc := TableStep(crc, buf[p]);
      p := p + 1;
    }
    assert buf[..p] == buf;
  }

  // ------------------------------------------------------ a file in chunks

  /** Where u whole pages end. */
  function Pages(u: nat, pageSize: nat): nat {
    u * pageSize
  }

  ghost predicate Aligned(offset: nat, pageSize: nat) {
    exists u: nat :: offset == Pages(u, pageSize)
  }

  lemma MorePages(u: nat, v: nat, pageSize: nat)
    ensures Pages(u, pageSize) + Pages(v, pageSize) == Pages(u + v, pageSize)
  {
  }

  /** The pieces, one after the other, are the first size bytes. */
  predicate Tiles(pieces: seq<(nat, nat)>, size: nat) {
    && pieces != [] && pieces[0].0 == 0
    && (forall i | 0 < i < |pieces| :: pieces[i].0 == pieces[i - 1].0 + pieces[i - 1].1)
    && pieces[|pieces| - 1].0 + pieces[|pieces| - 1].1 == size
  }

  const CHUNK: nat := 64 * 1024 * 1024

  /** main: the file is mapped chunk by chunk, each mapping at a page boundary. */
  method FileCrc(file: seq<bv8>, pageSize: nat) returns (crc: bv32, mapped: seq<(nat, nat)>)
    requires pageSize > 0
    ensures crc == Crc(file)
    ensures forall i | 0 <= i < |mapped| ::
              mapped[i].0 % pageSize == 0 && 0 < mapped[i].1 && mapped[i].0 + mapped[i].1 <= |file|
    ensures if file == [] then mapped == [] else Tiles(mapped, |file|)
  {
    hide Register, Pages;
    var chunkSize := CHUNK;
    chunkSize := Pages(chunkSize / pageSize, pageSize);
    ghost var perChunk: nat := CHUNK / pageSize;
    if chunkSize == 0 {
      chunkSize := pageSize;
      perChunk := 1;
      OnePage(pageSize);
    }
    crc := ALL_ONES;
    var offset := 0;
    mapped := [];
    ghost var pages: nat := 0;
    OnePage(pageSize);
    NothingRead(ALL_ONES);
    while offset < |file|
      invariant 0 <= offset <= |file| && crc == Register(file[..offset], ALL_ONES)
      invariant offset == |file| || offset == Pages(pages, pageSize)
      invariant forall i | 0 <= i < |mapped| ::
                  Aligned(mapped[i].0, pageSize) && 0 < mapped[i].1 && mapped[i].0 + mapped[i].1 <= |file|
      invariant if offset == 0 then mapped == [] else Tiles(mapped, offset)
    {
      var len := if |file| - offset > chunkSize then chunkSize else |file| - offset;
      mapped := mapped + [(offset, len)];
      RegisterConcat(file[..offset], file[offset..offset + len], ALL_ONES);
      assert file[..offset] + file[offset..offset + len] == file[..offset + len];
      crc := Crc32Raw(file[offset..offset + len], crc);
      offset := offset + len;
      MorePages(pages, perChunk, pageSize);
      pages := pages + perChunk;
    }
    assert file[..offset] == file;
    crc := crc ^ ALL_ONES;
    forall i | 0 <= i < |mapped| ensures mapped[i].0 % pageSize == 0 {
      AlignedIs(mapped[i].0, pageSize);
    }
  }

  lemma AlignedIs(offset: nat, pageSize: nat)
    requires pageSize > 0 && Aligned(offset, pageSize)
    ensures offset % pageSize == 0
  {
    var u: nat :| offset == Pages(u, pageSize);
    NoRest(offset, u, pageSize);
  }

  lemma NoRest(a: nat, u: int, n: nat)
    requires n > 0 && a == u * n
    ensures a % n == 0
  {
    var d := a / n;
    assert a == d * n + a % n;
    assert (u - d) * n == a % n;
    Multiple(u - d, n);
  }

  lemma Multiple(q: int, n: nat)
    ensures q >= 1 ==> q * n >= n
    ensures q <= -1 ==> q * n + n <= 0
  {
    if q >= 1 {
      assert (q - 1) * n >= 0;
    } else if q <= -1 {
      assert (-1 - q) * n >= 0;
    }
  }

  lemma OnePage(pageSize: nat)
    ensures Pages(0, pageSize) == 0 && Pages(1, pageSize) == pageSize
  {
  }

  lemma NothingRead(r: bv32)
    ensures Register([], r) == r
  {
  }

  // ------------------------------------------------------------ the residue

  function LowByte(w: bv32): bv8 {
    (w & 0xFF) as bv8
  }

  function Down8(w: bv32): bv32 {
    w >> 8
  }

  /** The n low bytes of a word, least significant first. */
  function LittleEndian(w: bv32, n: nat): seq<bv8> {
    if n == 0 then [] else [LowByte(w)] + LittleEndian(Down8(w), n - 1)
  }

  const RESIDUE: bv32 := 0xDEBB20E3

  lemma WordSplits(r: bv32, w: bv32)
    ensures var b := LowByte(w) as bv32;
            Xor(r, w) == Xor(Xor(r, b), Xor(w, b)) && Xor(w, b) & 0xFF == 0 && Xor(w, b) >> 8 == Down8(w)
  {
  }

  /** Feeding a word's low byte: what is left of the word stays xored in, a byte further down. */
  lemma WordStep(r: bv32, w: bv32)
    ensures Shift8(Xor(r, w)) == Xor(ByteStep(r, LowByte(w)), Down8(w))
  {
    hide Shift8, Xor, LowByte, Down8;
    var b := LowByte(w) as bv32;
    WordSplits(r, w);
    Shift8OfSum(Xor(r, w), Xor(r, b), Xor(w, b));
  }

  function Shift8Times(n: nat, r: bv32): bv32 {
    if n == 0 then r else Shift8Times(n - 1, Shift8(r))
  }

  function Down8Times(n: nat, w: bv32): bv32 {
    if n == 0 then w else Down8Times(n - 1, Down8(w))
  }

  /** Feeding the bytes of a word divides register and word together. */
  lemma {:induction false} WordFeed(r: bv32, w: bv32, n: nat)
    ensures Shift8Times(n, Xor(r, w)) == Xor(Register(LittleEndian(w, n), r), Down8Times(n, w))
    decreases n
  {
    hide Shift8, Xor, LowByte, Down8, ByteStep, Register;
    if n == 0 {
      NothingRead(r);
    } else {
      var first := [LowByte(w)];
      WordStep(r, w);
      WordFeed(ByteStep(r, LowByte(w)), Down8(w), n - 1);
      RegisterConcat(first, LittleEndian(Down8(w), n - 1), r);
      OneByte(LowByte(w), r);
    }
  }

  lemma OneByte(b: bv8, r: bv32)
    ensures Register([b], r) == ByteStep(r, b)
  {
    hide ByteStep;
    var data := [b];
    assert data[..0] == [];
  }

  lemma FourBytesGone(w: bv32)
    ensures Down8Times(4, w) == 0
  {
    assert Down8(Down8(Down8(Down8(w)))) == 0;
    assert Down8Times(1, Down8(Down8(Down8(w)))) == 0;
    assert Down8Times(2, Down8(Down8(w))) == 0;
  }

  lemma ResidueValue()
    ensures Shift8Times(4, ALL_ONES) == RESIDUE
  {
    assert Shift8(Shift8(Shift8(Shift8(ALL_ONES)))) == RESIDUE;
    assert Shift8Times(1, Shift8(Shift8(Shift8(ALL_ONES)))) == RESIDUE;
    assert Shift8Times(2, Shift8(Shift8(ALL_ONES))) == RESIDUE;
  }

  lemma Complement(r: bv32)
    ensures Xor(r, r ^ ALL_ONES) == ALL_ONES
  {
  }

  lemma XorZero(x: bv32)
    ensures Xor(x, 0) == x
  {
  }

  /** A file followed by its own CRC always leaves the same register. */
  lemma OwnCrcLeavesResidue(file: seq<bv8>)
    ensures Register(file + LittleEndian(Crc(file), 4), ALL_ONES) == RESIDUE
  {
    hide Shift8Times, Down8Times, Register, LittleEndian, Xor;
    var r, w := Register(file, ALL_ONES), Crc(file);
    RegisterConcat(file, LittleEndian(w, 4), ALL_ONES);
    WordFeed(r, w, 4);
    FourBytesGone(w);
    Complement(r);
    XorZero(Register(LittleEndian(w, 4), r));
    ResidueValue();
  }

  lemma RegisterSnoc(data: seq<bv8>, b: bv8, r: bv32)
    ensures Register(data + [b], r) == ByteStep(Register(data, r), b)
  {
    hide ByteStep;
    assert (data + [b])[..|data|] == data;
  }

  lemma NineSteps()
    ensures ByteStep(ALL_ONES, 0x31) == 0x7C231048
    ensures ByteStep(0x7C231048, 0x32) == 0xB0ACBB32
    ensures ByteStep(0xB0ACBB32, 0x33) == 0x77B79C2D
    ensures ByteStep(0x77B79C2D, 0x34) == 0x641C1F5C
    ensures ByteStep(0x641C1F5C, 0x35) == 0x340AC5E3
    ensures ByteStep(0x340AC5E3, 0x36) == 0xF68D2C9E
    ensures ByteStep(0xF68D2C9E, 0x37) == 0xAFFC9660
    ensures ByteStep(0xAFFC9660, 0x38) == 0x651F2550
    ensures ByteStep(0x651F2550, 0x39) == 0x340BC6D9
  {
  }

  /** The check value of the algorithm: the digits 1 to 9. */
  lemma CheckValue()
    ensures Crc([0x31, 0x32, 0x33, 0x34, 0x35, 0x36, 0x37, 0x38, 0x39]) == 0xCBF43926
  {
    hide ByteStep, Register;
    var one: seq<bv8> := [0x31];
    OneByte(0x31, ALL_ONES);
    RegisterSnoc(one, 0x32, ALL_ONES);
    RegisterSnoc(one + [0x32], 0x33, ALL_ONES);
    RegisterSnoc(one + [0x32] + [0x33], 0x34, ALL_ONES);
    var four := one + [0x32] + [0x33] + [0x34];
    RegisterSnoc(four, 0x35, ALL_ONES);
    RegisterSnoc(four + [0x35], 0x36, ALL_ONES);
    RegisterSnoc(four + [0x35] + [0x36], 0x37, ALL_ONES);
    var seven := four + [0x35] + [0x36] + [0x37];
    RegisterSnoc(seven, 0x38, ALL_ONES);
    RegisterSnoc(seven + [0x38], 0x39, ALL_ONES);
    NineSteps();
    assert seven + [0x38] + [0x39] == [0x31, 0x32, 0x33, 0x34, 0x35, 0x36, 0x37, 0x38, 0x39];
  }
}
