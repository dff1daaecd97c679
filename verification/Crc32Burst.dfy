/**
 * What the CRC detects: two files of equal length that differ only inside one window of at
 * most 32 consecutive bits, at any bit position, have different CRCs. Bits are taken in the
 * order in which the reflected division consumes them, least significant first.
 */
module Crc32Burst {
  import opened Crc32

  // ------------------------------------------------- the register, bit by bit

  function BitWord(bit: bool): bv32 {
    if bit then 1 else 0
  }

  /** The register after one more bit. */
  function BitStep(r: bv32, bit: bool): bv32 {
    Shift(Xor(r, BitWord(bit)))
  }

  function Feed(r: bv32, bits: seq<bool>): bv32
    decreases |bits|
  {
    if bits == [] then r else Feed(BitStep(r, bits[0]), bits[1..])
  }

  lemma {:induction false} FeedConcat(r: bv32, a: seq<bool>, b: seq<bool>)
    ensures Feed(r, a + b) == Feed(Feed(r, a), b)
    decreases |a|
  {
    hide BitStep;
    if a == [] {
      assert a + b == b;
    } else {
      FeedConcat(BitStep(r, a[0]), a[1..], b);
      assert (a + b)[1..] == a[1..] + b;
    }
  }

  function LowBit(y: bv32): bool {
    y & 1 == 1
  }

  function Half(y: bv32): bv32 {
    y >> 1
  }

  /** The k low bits of a word, least significant first. */
  function BitsOf(y: bv32, k: nat): seq<bool>
    decreases k
  {
    if k == 0 then [] else [LowBit(y)] + BitsOf(Half(y), k - 1)
  }

  function ShiftTimes(k: nat, r: bv32): bv32 {
    if k == 0 then r else ShiftTimes(k - 1, Shift(r))
  }

  function HalfTimes(k: nat, y: bv32): bv32 {
    if k == 0 then y else HalfTimes(k - 1, Half(y))
  }

  lemma ClearLowBit(y: bv32)
    ensures (y ^ (y & 1)) & 1 == 0 && (y ^ (y & 1)) >> 1 == y >> 1
  {
  }

  lemma BitSplits(r: bv32, y: bv32)
    ensures var b := BitWord(LowBit(y));
            Xor(r, y) == Xor(Xor(r, b), Xor(y, b)) && Xor(y, b) & 1 == 0 && Xor(y, b) >> 1 == Half(y)
  {
    LowIsBit(y);
    ClearLowBit(y);
    XorMove(r, y, y & 1);
  }

  /** Feeding a word's low bit: the rest of the word stays xored in, a bit further down. */
  lemma BitPeels(r: bv32, y: bv32)
    ensures Shift(Xor(r, y)) == Xor(BitStep(r, LowBit(y)), Half(y))
  {
    hide Shift, Xor, LowBit, Half, BitWord;
    var b := BitWord(LowBit(y));
    BitSplits(r, y);
    ShiftLinear(Xor(r, b), Xor(y, b));
    ShiftEven(Xor(y, b));
  }

  lemma {:induction false} FeedBits(r: bv32, y: bv32, k: nat)
    ensures ShiftTimes(k, Xor(r, y)) == Xor(Feed(r, BitsOf(y, k)), HalfTimes(k, y))
    decreases k
  {
    hide Shift, Xor, LowBit, Half, BitStep;
    if k > 0 {
      BitPeels(r, y);
      FeedBits(BitStep(r, LowBit(y)), Half(y), k - 1);
      assert BitsOf(y, k)[1..] == BitsOf(Half(y), k - 1);
    }
  }

  lemma ByteGone(b: bv8)
    ensures HalfTimes(8, b as bv32) == 0
  {
    var y := b as bv32;
    assert Half(Half(Half(Half(Half(Half(Half(Half(y)))))))) == 0;
    assert HalfTimes(1, Half(Half(Half(Half(Half(Half(Half(y)))))))) == 0;
    assert HalfTimes(2, Half(Half(Half(Half(Half(Half(y))))))) == 0;
    assert HalfTimes(3, Half(Half(Half(Half(Half(y)))))) == 0;
    assert HalfTimes(4, Half(Half(Half(Half(y))))) == 0;
    assert HalfTimes(5, Half(Half(Half(y)))) == 0;
    assert HalfTimes(6, Half(Half(y))) == 0;
  }

  lemma EightShifts(r: bv32)
    ensures ShiftTimes(8, r) == Shift8(r)
  {
    hide Shift;
    var r1 := Shift(r);
    var r2 := Shift(r1);
    var r3 := Shift(r2);
    var r4 := Shift(r3);
    var r5 := Shift(r4);
    var r6 := Shift(r5);
    assert ShiftTimes(1, Shift(r6)) == Shift(Shift(r6));
    assert ShiftTimes(3, r5) == ShiftTimes(2, r6) == Shift(Shift(r6));
    assert ShiftTimes(5, r3) == ShiftTimes(4, r4) == ShiftTimes(3, r5);
    assert ShiftTimes(8, r) == ShiftTimes(7, r1) == ShiftTimes(6, r2) == ShiftTimes(5, r3);
  }

  function ByteBits(b: bv8): seq<bool> {
    BitsOf(b as bv32, 8)
  }

  /** Feeding the bits of a byte is the byte update. */
  lemma ByteFeed(r: bv32, b: bv8)
    ensures Feed(r, ByteBits(b)) == ByteStep(r, b)
  {
    hide Shift8, Xor, Feed, BitsOf, HalfTimes, ShiftTimes;
    var y := b as bv32;
    FeedBits(r, y, 8);
    ByteGone(b);
    XorZero(Feed(r, BitsOf(y, 8)));
    EightShifts(Xor(r, y));
  }

  function FileBits(data: seq<bv8>): seq<bool> {
    if data == [] then [] else FileBits(data[..|data| - 1]) + ByteBits(data[|data| - 1])
  }

  lemma {:induction false} FileFeed(data: seq<bv8>, r: bv32)
    ensures Feed(r, FileBits(data)) == Register(data, r)
  {
    hide ByteStep, ByteBits, Feed;
    if data == [] {
      assert Feed(r, []) == r by {
        FeedNothing(r);
      }
    } else {
      var p, b := data[..|data| - 1], data[|data| - 1];
      FileFeed(p, r);
      FeedConcat(r, FileBits(p), ByteBits(b));
      ByteFeed(Register(p, r), b);
    }
  }

  lemma FeedNothing(r: bv32)
    ensures Feed(r, []) == r
  {
  }

  // ------------------------------------------------------- running backwards

  predicate TopClear(y: bv32) {
    y & 0x8000_0000 == 0
  }

  function Twice(y: bv32): bv32 {
    y << 1
  }

  /** The f high bits of a word are zero. */
  predicate Free(y: bv32, f: nat)
    decreases f
  {
    f == 0 || (TopClear(y) && Free(Twice(y), f - 1))
  }

  lemma {:induction false} FreeZero(f: nat)
    ensures Free(0, f)
  {
    if f > 0 {
      assert Twice(0) == 0 && TopClear(0);
      FreeZero(f - 1);
    }
  }

  lemma {:induction false} FreeLess(y: bv32, f: nat, g: nat)
    requires Free(y, f) && g <= f
    ensures Free(y, g)
    decreases g
  {
    hide Twice, TopClear;
    if g > 0 {
      FreeLess(Twice(y), f - 1, g - 1);
    }
  }

  lemma TopXor(a: bv32, b: bv32)
    ensures TopClear(a) && TopClear(b) ==> TopClear(Xor(a, b))
  {
  }

  lemma ShlXor(a: bv32, b: bv32)
    ensures (a ^ b) << 1 == (a << 1) ^ (b << 1)
  {
  }

  lemma TwiceXor(a: bv32, b: bv32)
    ensures Twice(Xor(a, b)) == Xor(Twice(a), Twice(b))
  {
    ShlXor(a, b);
  }

  lemma {:induction false} FreeXor(a: bv32, b: bv32, f: nat)
    requires Free(a, f) && Free(b, f)
    ensures Free(Xor(a, b), f)
    decreases f
  {
    hide Xor, Twice, TopClear;
    if f > 0 {
      TopXor(a, b);
      TwiceXor(a, b);
      FreeXor(Twice(a), Twice(b), f - 1);
    }
  }

  lemma FreeOne()
    ensures Free(1, 31)
  {
    assert Free(0x40000000, 1) && Free(0x20000000, 2) && Free(0x10000000, 3) && Free(0x08000000, 4);
    assert Free(0x04000000, 5) && Free(0x02000000, 6) && Free(0x01000000, 7) && Free(0x00800000, 8);
    assert Free(0x00400000, 9) && Free(0x00200000, 10) && Free(0x00100000, 11) && Free(0x00080000, 12);
    assert Free(0x00040000, 13) && Free(0x00020000, 14) && Free(0x00010000, 15) && Free(0x00008000, 16);
    assert Free(0x00004000, 17) && Free(0x00002000, 18) && Free(0x00001000, 19) && Free(0x00000800, 20);
    assert Free(0x00000400, 21) && Free(0x00000200, 22) && Free(0x00000100, 23) && Free(0x00000080, 24);
    assert Free(0x00000040, 25) && Free(0x00000020, 26) && Free(0x00000010, 27) && Free(0x00000008, 28);
    assert Free(0x00000004, 29) && Free(0x00000002, 30) && Free(0x00000001, 31);
  }

  /** A step whose result has a clear top bit can be undone by moving back up. */
  lemma ShiftUndone(e: bv32)
    requires TopClear(Shift(e))
    ensures e & 1 == 0 && Twice(Shift(e)) == e
  {
  }

  lemma ShiftInjective(a: bv32, b: bv32)
    requires Shift(a) == Shift(b)
    ensures a == b
  {
  }

  lemma XorSame(a: bv32)
    ensures Xor(a, a) == 0
  {
  }

  lemma XorSwap(a: bv32, b: bv32)
    ensures Xor(a, b) == Xor(b, a)
  {
  }

  lemma XorGroup(a: bv32, b: bv32, c: bv32)
    ensures Xor(Xor(a, b), c) == Xor(a, Xor(b, c))
  {
  }

  lemma XorCancels(a: bv32, b: bv32, c: bv32)
    requires Xor(a, c) == Xor(b, c)
    ensures a == b
  {
    hide Xor;
    XorGroup(a, c, c);
    XorGroup(b, c, c);
    XorSame(c);
    XorZero(a);
    XorZero(b);
  }

  /** The bits fed in, apart from the registers they are fed into. */
  lemma Regroup(r: bv32, s: bv32, x: bv32, y: bv32)
    ensures var e := Xor(Xor(r, x), Xor(s, y));
            Xor(r, s) == Xor(e, Xor(x, y)) && (r == s ==> e == Xor(x, y))
  {
    hide Xor;
    var d := Xor(x, y);
    XorGroup(r, x, Xor(s, y));
    XorGroup(x, s, y);
    XorSwap(x, s);
    XorGroup(s, x, y);
    XorGroup(r, s, d);
    XorGroup(Xor(r, s), d, d);
    XorSame(d);
    XorZero(Xor(r, s));
    XorSame(r);
    XorSwap(0, d);
    XorZero(d);
  }

  lemma BitDifference(x: bool, y: bool)
    ensures var d := Xor(BitWord(x), BitWord(y)); (d == 0 || d == 1) && (d & 1 == 0 ==> x == y)
  {
  }

  /**
   * Two registers that meet after n <= 32 bits each differed in their n low bits at most; had
   * they been equal, the bits would have been the same.
   */
  lemma {:induction false} MeetBackwards(r: bv32, s: bv32, x: seq<bool>, y: seq<bool>)
    requires |x| == |y| <= 32 && Feed(r, x) == Feed(s, y)
    ensures Free(Xor(r, s), 32 - |x|)
    ensures r == s ==> x == y
    decreases |x|
  {
    hide Shift, Xor, BitWord, TopClear, Twice;
    var f := 32 - |x|;
    if x == [] {
      XorSame(r);
      FreeZero(f);
    } else {
      var u, v := BitWord(x[0]), BitWord(y[0]);
      var e, d := Xor(Xor(r, u), Xor(s, v)), Xor(u, v);
      MeetBackwards(BitStep(r, x[0]), BitStep(s, y[0]), x[1..], y[1..]);
      ShiftLinear(Xor(r, u), Xor(s, v));
      ShiftUndone(e);
      Regroup(r, s, u, v);
      BitDifference(x[0], y[0]);
      FreeBit(d, f);
      FreeXor(e, d, f);
      if r == s {
        assert x[0] == y[0];
        assert x == [x[0]] + x[1..] && y == [y[0]] + y[1..];
      }
    }
  }

  lemma FreeBit(d: bv32, f: nat)
    requires (d == 0 || d == 1) && f <= 31
    ensures Free(d, f)
  {
    hide Free;
    if d == 0 {
      FreeZero(f);
    } else {
      FreeOne();
      FreeLess(1, 31, f);
    }
  }

  /** The same bits keep different registers different. */
  lemma {:induction false} FeedKeepsApart(r: bv32, s: bv32, bits: seq<bool>)
    requires r != s
    ensures Feed(r, bits) != Feed(s, bits)
    decreases |bits|
  {
    hide Shift, Xor, BitWord;
    if bits != [] {
      var r', s' := BitStep(r, bits[0]), BitStep(s, bits[0]);
      if r' == s' {
        ShiftInjective(Xor(r, BitWord(bits[0])), Xor(s, BitWord(bits[0])));
        XorCancels(r, s, BitWord(bits[0]));
      }
      FeedKeepsApart(r', s', bits[1..]);
    }
  }

  // ------------------------------------------------------------ the theorem

  lemma HalvesDecide(y: bv32, z: bv32)
    requires LowBit(y) == LowBit(z) && Half(y) == Half(z)
    ensures y == z
  {
  }

  lemma {:induction false} BitsDecide(y: bv32, z: bv32, k: nat)
    requires BitsOf(y, k) == BitsOf(z, k) && HalfTimes(k, y) == HalfTimes(k, z)
    ensures y == z
    decreases k
  {
    hide LowBit, Half;
    if k > 0 {
      assert BitsOf(y, k)[0] == LowBit(y) && BitsOf(y, k)[1..] == BitsOf(Half(y), k - 1);
      assert BitsOf(z, k)[0] == LowBit(z) && BitsOf(z, k)[1..] == BitsOf(Half(z), k - 1);
      BitsDecide(Half(y), Half(z), k - 1);
      HalvesDecide(y, z);
    }
  }

  lemma {:induction false} BitsLength(y: bv32, k: nat)
    ensures |BitsOf(y, k)| == k
    decreases k
  {
    if k > 0 {
      BitsLength(Half(y), k - 1);
    }
  }

  lemma ByteBitsDecide(a: bv8, b: bv8)
    ensures |ByteBits(a)| == 8
    ensures ByteBits(a) == ByteBits(b) ==> a == b
  {
    hide BitsOf, HalfTimes;
    BitsLength(a as bv32, 8);
    if ByteBits(a) == ByteBits(b) {
      ByteGone(a);
      ByteGone(b);
      BitsDecide(a as bv32, b as bv32, 8);
    }
  }

  /** Files are determined by their bits. */
  lemma {:induction false} FileBitsDecide(a: seq<bv8>, b: seq<bv8>)
    requires |a| == |b|
    ensures |FileBits(a)| == |FileBits(b)| == 8 * |a|
    ensures FileBits(a) == FileBits(b) ==> a == b
  {
    hide ByteBits;
    if a != [] {
      var p, q, x, y := a[..|a| - 1], b[..|b| - 1], a[|a| - 1], b[|b| - 1];
      FileBitsDecide(p, q);
      ByteBitsDecide(x, y);
      ByteBitsDecide(y, x);
      if FileBits(a) == FileBits(b) {
        assert FileBits(a)[..8 * |p|] == FileBits(p) && FileBits(a)[8 * |p|..] == ByteBits(x);
        assert FileBits(b)[..8 * |p|] == FileBits(q) && FileBits(b)[8 * |p|..] == ByteBits(y);
        assert a == p + [x] && b == q + [y];
      }
    }
  }

  /** The bits of two files agree before bit i and from bit i + w on. */
  predicate AgreeOutside(a: seq<bool>, b: seq<bool>, i: nat, w: nat) {
    |a| == |b| && i + w <= |a| && a[..i] == b[..i] && a[i + w..] == b[i + w..]
  }

  lemma WindowDetected(r: bv32, a: seq<bool>, b: seq<bool>, i: nat, w: nat)
    requires AgreeOutside(a, b, i, w) && w <= 32 && a != b
    ensures Feed(r, a) != Feed(r, b)
  {
    hide Feed, BitStep;
    var r0 := Feed(r, a[..i]);
    var x, y, rest := a[i..i + w], b[i..i + w], a[i + w..];
    assert a == a[..i] + (x + rest) && b == b[..i] + (y + rest);
    FeedConcat(r, a[..i], x + rest);
    FeedConcat(r, b[..i], y + rest);
    FeedConcat(r0, x, rest);
    FeedConcat(r0, y, rest);
    assert x != y;
    if Feed(r0, x) == Feed(r0, y) {
      MeetBackwards(r0, r0, x, y);
    }
    FeedKeepsApart(Feed(r0, x), Feed(r0, y), rest);
  }

  /** Any burst of at most 32 bits changes the CRC. */
  lemma BurstDetected(a: seq<bv8>, b: seq<bv8>, i: nat, w: nat)
    requires |a| == |b| && a != b && w <= 32 && AgreeOutside(FileBits(a), FileBits(b), i, w)
    ensures Crc(a) != Crc(b)
  {
    hide Feed, FileBits, Register;
    FileBitsDecide(a, b);
    FileFeed(a, ALL_ONES);
    FileFeed(b, ALL_ONES);
    WindowDetected(ALL_ONES, FileBits(a), FileBits(b), i, w);
    ComplementDecides(Register(a, ALL_ONES), Register(b, ALL_ONES));
  }

  lemma ComplementDecides(r: bv32, s: bv32)
    ensures r ^ ALL_ONES == s ^ ALL_ONES ==> r == s
  {
  }
}
