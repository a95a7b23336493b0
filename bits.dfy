/**
 * Bitmap indexing of one Ctrie level (bits.go).
 *
 * A level consumes a 6-bit chunk of the 64-bit hash code; a C-node keeps a
 * 64-bit bitmap with one bit per chunk value and a compacted array holding
 * one branch per set bit, in ascending bit order. The position of a branch
 * is the number of set bits below its flag.
 */
module Bits {
  /** Hash bits consumed per level (`w`). */
  const W: nat := 6
  /** Width of the hash code space in bits (`exp2`). */
  const Exp2: nat := 64

  /**
   * The chunk of the hash code used at level `lev`. Shifting a 64-bit word by
   * 64 or more gives zero, so chunks past the end of the hash are zero.
   */
  function Chunk(h: bv64, lev: nat): bv6
  {
    if lev < Exp2 then ((h >> lev) & 0x3f) as bv6 else 0
  }

  /** The single bitmap bit that stands for chunk `c`. */
  function Flag(c: bv6): bv64
  {
    1 << c
  }

  /** Bit 0 of `x`, as a count. */
  function Low(x: bv64): nat
  {
    if x & 1 == 1 then 1 else 0
  }

  /** The number of set bits among bits 0 .. n-1 of `x`. */
  function CountFrom(x: bv64, n: nat): nat
    decreases n
  {
    if n == 0 then 0 else Low(x) + CountFrom(x >> 1, n - 1)
  }

  /** The number of set bits of `x` (the reference population count). */
  function PopCount(x: bv64): nat
  {
    CountFrom(x, 64)
  }

  /** Whether bit `c` of `x` is set. */
  predicate Has(x: bv64, c: bv6)
  {
    x & Flag(c) != 0
  }

  /**
   * flagPos: the flag bit of the hash's chunk at level `lev` and the position
   * of that chunk's branch in the compacted array of a C-node with bitmap
   * `bmp`: the flag has exactly one bit, testing it tests the chunk's bit,
   * and the position is the number of bitmap bits strictly below it, so it
   * indexes the array when the bit is set.
   */
  method FlagPos(h: bv64, lev: nat, bmp: bv64) returns (flag: bv64, pos: nat)
    ensures flag == Flag(Chunk(h, lev))
    ensures (bmp & flag != 0) <==> Has(bmp, Chunk(h, lev))
    ensures pos == CountFrom(bmp, Chunk(h, lev) as nat) && pos <= PopCount(bmp)
    ensures Has(bmp, Chunk(h, lev)) ==> pos < PopCount(bmp)
  {
    var idx := Chunk(h, lev);
    flag := Flag(idx);
    var below := bmp & (flag - 1);
    SlotFacts(bmp, idx);
    BitCount64Counts(below);
    pos := ToNat(BitCount64(below));
    FlagTest(bmp, flag, idx);
  }

  /** Testing a chunk's flag tests the chunk's bit. */
  lemma FlagTest(bmp: bv64, flag: bv64, c: bv6)
    requires flag == Flag(c)
    ensures (bmp & flag != 0) <==> Has(bmp, c)
  {
  }

  lemma SlotFacts(bmp: bv64, c: bv6)
    ensures PopCount(Flag(c)) == 1
    ensures PopCount(bmp & (Flag(c) - 1)) == CountFrom(bmp, c as nat)
    ensures CountFrom(bmp, c as nat) <= PopCount(bmp)
    ensures Has(bmp, c) ==> CountFrom(bmp, c as nat) < PopCount(bmp)
  {
    LowMask(bmp, c, 64);
    FlagSingle(c);
    PosBound(bmp, c);
  }

  // ---------------------------------------------------------------------
  // Single-bit facts, each a small bit-vector identity.
  // ---------------------------------------------------------------------

  lemma FlagNonZero(c: bv6)
    ensures Flag(c) != 0
  {
  }

  lemma FlagDisjoint(c: bv6, d: bv6)
    requires c != d
    ensures Flag(c) & Flag(d) == 0
  {
  }

  lemma Distrib(x: bv64, y: bv64, z: bv64)
    ensures (x | y) & z == (x & z) | (y & z)
  {
  }

  lemma OrZero(x: bv64)
    ensures x | 0 == x
  {
  }

  lemma Pred(c: bv6)
    requires 0 < c
    ensures (c - 1) as nat == c as nat - 1
  {
  }

  lemma LtNat(c: bv6, d: bv6)
    ensures (c < d) <==> (c as nat < d as nat)
  {
  }

  lemma ShiftSet(x: bv64, c: bv6)
    requires 0 < c
    ensures (x | Flag(c)) >> 1 == (x >> 1) | Flag(c - 1)
    ensures Low(x | Flag(c)) == Low(x)
  {
  }

  lemma ShiftSetZero(x: bv64)
    requires !Has(x, 0)
    ensures (x | Flag(0)) >> 1 == x >> 1
    ensures Low(x | Flag(0)) == 1 && Low(x) == 0
  {
  }

  lemma ShiftHas(x: bv64, c: bv6)
    requires 0 < c
    ensures Has(x, c) <==> Has(x >> 1, c - 1)
  {
  }

  lemma HasZero(x: bv64)
    ensures Has(x, 0) <==> Low(x) == 1
  {
  }

  lemma ShiftMask(x: bv64, c: bv6)
    requires 0 < c
    ensures (x & (Flag(c) - 1)) >> 1 == (x >> 1) & (Flag(c - 1) - 1)
    ensures Low(x & (Flag(c) - 1)) == Low(x)
  {
  }

  lemma ZeroMask(x: bv64)
    ensures x & (Flag(0) - 1) == 0
  {
  }

  lemma ClearFlag(x: bv64, c: bv6)
    requires Has(x, c)
    ensures !Has(x ^ Flag(c), c) && (x ^ Flag(c)) | Flag(c) == x
  {
  }

  lemma OrNonZero(x: bv64, y: bv64)
    requires y != 0
    ensures x | y != 0
  {
  }

  lemma HasSetSame(x: bv64, c: bv6)
    ensures Has(x | Flag(c), c)
  {
    Distrib(x, Flag(c), Flag(c));
    assert Flag(c) & Flag(c) == Flag(c);
    FlagNonZero(c);
    OrNonZero(x & Flag(c), Flag(c));
  }

  lemma HasSetOther(x: bv64, c: bv6, d: bv6)
    requires c != d
    ensures Has(x | Flag(c), d) <==> Has(x, d)
  {
    Distrib(x, Flag(c), Flag(d));
    FlagDisjoint(c, d);
    OrZero(x & Flag(d));
  }

  /** Setting bit c adds bit c and leaves every other bit as it was. */
  lemma HasSet(x: bv64, c: bv6, d: bv6)
    ensures Has(x | Flag(c), d) <==> Has(x, d) || c == d
  {
    if c == d {
      HasSetSame(x, c);
    } else {
      HasSetOther(x, c, d);
    }
  }

  /** A flag has exactly the bit at its own index. */
  lemma HasFlag(c: bv6, d: bv6)
    ensures Has(Flag(c), d) <==> c == d
  {
    assert (0 as bv64) | Flag(c) == Flag(c);
    assert !Has(0, d);
    HasSet(0, c, d);
  }

  // ---------------------------------------------------------------------
  // Counting set bits.
  // ---------------------------------------------------------------------

  lemma Unfold(x: bv64, n: nat)
    requires 0 < n
    ensures CountFrom(x, n) == Low(x) + CountFrom(x >> 1, n - 1)
  {
  }

  lemma {:induction false} CountZero(n: nat)
    ensures CountFrom(0, n) == 0
    decreases n
  {
    if n > 0 {
      Unfold(0, n);
      assert (0 as bv64) >> 1 == 0;
      CountZero(n - 1);
    }
  }

  /** Counting more bits never counts fewer. */
  lemma {:induction false} CountMono(x: bv64, m: nat, n: nat)
    requires m <= n
    ensures CountFrom(x, m) <= CountFrom(x, n)
    decreases m
  {
    if m > 0 {
      Unfold(x, m);
      Unfold(x, n);
      CountMono(x >> 1, m - 1, n - 1);
    }
  }

  /** Extending the counted range by bit c adds one exactly when bit c is set. */
  lemma {:induction false} CountStep(x: bv64, c: bv6)
    ensures CountFrom(x, c as nat + 1) == CountFrom(x, c as nat) + (if Has(x, c) then 1 else 0)
    decreases c
  {
    Unfold(x, c as nat + 1);
    if c == 0 {
      HasZero(x);
    } else {
      Unfold(x, c as nat);
      ShiftHas(x, c);
      Pred(c);
      CountStep(x >> 1, c - 1);
    }
  }

  /** Setting a clear bit c adds one to the count of every range that covers it. */
  lemma {:induction false} CountSet(x: bv64, c: bv6, n: nat)
    requires !Has(x, c)
    ensures CountFrom(x | Flag(c), n) == CountFrom(x, n) + (if (c as nat) < n then 1 else 0)
    decreases n
  {
    if n > 0 {
      Unfold(x, n);
      Unfold(x | Flag(c), n);
      if c == 0 {
        ShiftSetZero(x);
      } else {
        ShiftSet(x, c);
        ShiftHas(x, c);
        Pred(c);
        CountSet(x >> 1, c - 1, n - 1);
      }
    }
  }

  /** Counting the bits of `x` masked below c counts the bits of `x` below c. */
  lemma {:induction false} LowMask(x: bv64, c: bv6, n: nat)
    requires c as nat <= n
    ensures CountFrom(x & (Flag(c) - 1), n) == CountFrom(x, c as nat)
    decreases n
  {
    if c == 0 {
      ZeroMask(x);
      CountZero(n);
    } else {
      Unfold(x & (Flag(c) - 1), n);
      Unfold(x, c as nat);
      ShiftMask(x, c);
      Pred(c);
      LowMask(x >> 1, c - 1, n - 1);
    }
  }

  /** A flag has exactly one set bit. */
  lemma FlagSingle(c: bv6)
    ensures PopCount(Flag(c)) == 1
  {
    assert (0 as bv64) | Flag(c) == Flag(c);
    assert !Has(0, c);
    CountSet(0, c, 64);
    CountZero(64);
  }

  /** The position of a chunk lies within the array, strictly so when its bit is set. */
  lemma PosBound(bmp: bv64, c: bv6)
    ensures CountFrom(bmp, c as nat) <= PopCount(bmp)
    ensures Has(bmp, c) ==> CountFrom(bmp, c as nat) < PopCount(bmp)
  {
    CountStep(bmp, c);
    CountMono(bmp, c as nat + 1, 64);
  }

  /** Set bits at lower chunks sit at strictly lower positions. */
  lemma PosOrder(bmp: bv64, d: bv6, c: bv6)
    requires d < c && Has(bmp, d)
    ensures CountFrom(bmp, d as nat) < CountFrom(bmp, c as nat)
  {
    CountStep(bmp, d);
    CountMono(bmp, d as nat + 1, c as nat);
  }

  /** Positions do not decrease with the chunk. */
  lemma PosMono(bmp: bv64, c: bv6, d: bv6)
    requires c < d
    ensures CountFrom(bmp, c as nat) <= CountFrom(bmp, d as nat)
  {
    LtNat(c, d);
    CountMono(bmp, c as nat, d as nat);
  }

  /** Setting a clear bit c: counts and bits of the result, stated for any chunk d. */
  lemma SetFacts(x: bv64, y: bv64, c: bv6, d: bv6)
    requires !Has(x, c) && y == x | Flag(c)
    ensures CountFrom(y, d as nat) == CountFrom(x, d as nat) + (if c as nat < d as nat then 1 else 0)
    ensures Has(y, d) <==> Has(x, d) || c == d
    ensures PopCount(y) == PopCount(x) + 1
    ensures (c < d) <==> (c as nat < d as nat)
  {
    CountSet(x, c, d as nat);
    CountSet(x, c, 64);
    HasSet(x, c, d);
    LtNat(c, d);
  }

  /** Clearing a set bit c: counts and bits of the result, stated for any chunk d. */
  lemma ClearFacts(x: bv64, y: bv64, c: bv6, d: bv6)
    requires Has(x, c) && y == x ^ Flag(c)
    ensures CountFrom(x, d as nat) == CountFrom(y, d as nat) + (if c as nat < d as nat then 1 else 0)
    ensures Has(y, d) <==> Has(x, d) && c != d
    ensures PopCount(x) == PopCount(y) + 1
    ensures (c < d) <==> (c as nat < d as nat)
  {
    ClearFlag(x, c);
    SetFacts(y, x, c, d);
  }

  /** A bitmap with a set bit among its low n bits has one: some chunk below n is present. */
  lemma {:induction false} SomeBit(x: bv64, n: nat) returns (c: bv6)
    requires n <= 64 && CountFrom(x, n) > 0
    ensures Has(x, c) && (c as nat) < n
    decreases n
  {
    Unfold(x, n);
    if Low(x) == 1 {
      HasZero(x);
      c := 0;
    } else {
      var c' := SomeBit(x >> 1, n - 1);
      c := c' + 1;
      ShiftHas(x, c);
      Pred(c);
    }
  }

  /** The count below chunk d of a single flag c is one exactly when c lies below d. */
  lemma FlagCount(c: bv6, d: bv6)
    ensures CountFrom(Flag(c), d as nat) == if c < d then 1 else 0
  {
    assert (0 as bv64) | Flag(c) == Flag(c);
    assert !Has(0, c);
    CountSet(0, c, d as nat);
    CountZero(d as nat);
    LtNat(c, d);
  }

  /** Two distinct flags make a bitmap with exactly their two bits. */
  lemma PairHas(c: bv6, d: bv6, e: bv6)
    requires c < d
    ensures Has(Flag(c) | Flag(d), e) <==> e == c || e == d
  {
    HasFlag(c, e);
    HasSet(Flag(c), d, e);
  }

  /** In a bitmap of two flags, the lower bit sits at position 0 and the higher at 1. */
  lemma PairCount(x: bv64, y: bv64, c: bv6, d: bv6)
    requires c < d && x == Flag(c) && y == x | Flag(d)
    ensures PopCount(y) == 2
    ensures CountFrom(y, c as nat) == 0
    ensures CountFrom(y, d as nat) == 1
  {
    HasFlag(c, d);
    FlagSingle(c);
    FlagCount(c, c);
    FlagCount(c, d);
    SetFacts(x, y, d, c);
    SetFacts(x, y, d, d);
  }
  lemma OrSwap(a: bv64, b: bv64)
    ensures a | b == b | a
  {
  }

  /** A bitmap of two distinct flags in either order: their two bits, the lower at position 0. */
  lemma PairBitmap(cx: bv6, cy: bv6, b: bv64, d: bv6)
    requires cx != cy && b == Flag(cx) | Flag(cy)
    ensures PopCount(b) == 2
    ensures Has(b, d) <==> d == cx || d == cy
    ensures CountFrom(b, cx as nat) == (if cx < cy then 0 else 1)
    ensures CountFrom(b, cy as nat) == (if cx < cy then 1 else 0)
  {
    if cx < cy {
      PairCount(Flag(cx), b, cx, cy);
      PairHas(cx, cy, d);
    } else {
      OrSwap(Flag(cx), Flag(cy));
      PairCount(Flag(cy), b, cy, cx);
      PairHas(cy, cx, d);
    }
  }
  /** Every position of a compacted array belongs to some set bit: the j-th set bit at or above bit n. */
  lemma {:induction false} BitAtFrom(x: bv64, j: nat, n: nat) returns (c: bv6)
    requires n < 64 && CountFrom(x, n) <= j < PopCount(x)
    ensures Has(x, c) && CountFrom(x, c as nat) == j
    decreases 64 - n
  {
    var d := ChunkOf(n);
    CountStep(x, d);
    if Has(x, d) && CountFrom(x, n) == j {
      c := d;
    } else {
      c := BitAtFrom(x, j, n + 1);
    }
  }

  lemma ChunkOf(n: nat) returns (d: bv6)
    requires n < 64
    ensures d as nat == n
  {
    d := n as bv6;
  }

  /** The chunk whose branch sits at position j of a compacted array. */
  lemma BitAt(x: bv64, j: nat) returns (c: bv6)
    requires j < PopCount(x)
    ensures Has(x, c) && CountFrom(x, c as nat) == j
  {
    CountZero(0);
    c := BitAtFrom(x, j, 0);
  }

  // ---------------------------------------------------------------------
  // The SWAR population counts of bits.go.
  //
  // bitCount64 sums the bits of each 2-bit field, then of each 4-bit field,
  // then of each byte, and finally adds the eight bytes with a multiply
  // whose top byte is their sum. Each step is proved to keep the total: the
  // sum of its fields equals the sum of the previous fields.
  // ---------------------------------------------------------------------

  /** bitCount64, the SWAR population count, as written: one function per line. */
  function BitCount64(x0: bv64): bv64
  {
    var x1 := PairCounts(x0);
    var x2 := NibbleSums(x1);
    var x3 := ByteSums(x2);
    TopOf(x3)
  }

  /** bits.go:20: each 2-bit field replaced by the number of its set bits. */
  function PairCounts(x: bv64): bv64
  {
    x - ((x >> 1) & 0x5555555555555555)
  }

  /** bits.go:21: each 4-bit field replaced by the sum of its two 2-bit fields. */
  function NibbleSums(x: bv64): bv64
  {
    ((x >> 2) & 0x3333333333333333) + (x & 0x3333333333333333)
  }

  /** bits.go:22: each byte replaced by the sum of its two 4-bit fields. */
  function ByteSums(x: bv64): bv64
  {
    ((x >> 4) + x) & 0x0F0F0F0F0F0F0F0F
  }

  /** bits.go:23-24: the top byte of the multiply by 0x0101010101010101. */
  function TopOf(y: bv64): bv64
  {
    (y * 0x0101010101010101) >> 56
  }

  /**
   * bitCount32 as written. Its argument is a uint64, so the masks are 32-bit
   * but the multiply does not wrap at 32 bits: `x >> 24` keeps the bytes of
   * the product above the fourth.
   */
  function BitCount32(x0: bv64): bv64
  {
    var x1 := PairCounts32(x0);
    var x2 := NibbleSums32(x1);
    var x3 := ByteSums32(x2);
    (x3 * 0x01010101) >> 24
  }

  /** bitCount32 with the multiply wrapping at 32 bits, as it does on a uint32. */
  function BitCount32Wrapped(x0: bv64): bv64
  {
    var x1 := PairCounts32(x0);
    var x2 := NibbleSums32(x1);
    var x3 := ByteSums32(x2);
    Top32(x3)
  }

  /** bits.go:28. */
  function PairCounts32(x: bv64): bv64
  {
    x - ((x >> 1) & 0x55555555)
  }

  /** bits.go:29. */
  function NibbleSums32(x: bv64): bv64
  {
    ((x >> 2) & 0x33333333) + (x & 0x33333333)
  }

  /** bits.go:30. */
  function ByteSums32(x: bv64): bv64
  {
    ((x >> 4) + x) & 0x0f0f0f0f
  }

  /** bits.go:31-32 on a uint32: the product cut to 32 bits, then its top byte. */
  function Top32(y: bv64): bv64
  {
    ((y * 0x01010101) & 0xFFFFFFFF) >> 24
  }

  /** bitCount64 returns the number of set bits of its argument, at most 64. */
  lemma BitCount64Counts(x: bv64)
    ensures BitCount64(x) as nat == PopCount(x)
    ensures PopCount(x) <= 64
  {
    var x1 := PairCounts(x);
    var x2 := NibbleSums(x1);
    var x3 := ByteSums(x2);
    SubAsSum(x);
    PairsCount(x, 32);
    NibblesPairs(x1, 16);
    NibbleSmall(x1);
    BytesNibbles(x2, 8);
    ByteSmall(x2);
    TopByte(x3);
    CountBound(x, 64);
  }

  /** On a value below 2^32, bitCount32 with a 32-bit multiply counts its set bits. */
  lemma BitCount32Counts(x: bv64)
    requires x & 0xFFFFFFFF00000000 == 0
    ensures BitCount32Wrapped(x) as nat == PopCount(x)
  {
    var x1 := PairCounts(x);
    var x2 := NibbleSums(x1);
    var x3 := ByteSums(x2);
    NarrowPairs(x);
    SubAsSum(x);
    NarrowNibbles(x1);
    NibbleSmall(x1);
    NarrowBytes(x2);
    ByteSmall(x2);
    TopByte32(x3);
    BitCount64Counts(x);
  }

  /**
   * bitCount32 as written overcounts: on 0x100, which has one set bit, the
   * unwrapped product keeps a second byte above the shift, giving 257.
   */
  lemma BitCount32Overflows()
    ensures PopCount(0x100) == 1
    ensures BitCount32(0x100) == 257
    ensures BitCount32Wrapped(0x100) == 1
  {
    BitCount64Counts(0x100);
  }

  /** The count of each 2-bit field written as a sum of its two bits. */
  function PairSums(x: bv64): bv64
  {
    (x & 0x5555555555555555) + ((x >> 1) & 0x5555555555555555)
  }

  /** The sum of the low n 2-bit fields of x. */
  function Pairs(x: bv64, n: nat): nat
    decreases n
  {
    if n == 0 then 0 else (x & 3) as nat + Pairs(x >> 2, n - 1)
  }

  /** The sum of the low n 4-bit fields of x. */
  function Nibbles(x: bv64, n: nat): nat
    decreases n
  {
    if n == 0 then 0 else (x & 15) as nat + Nibbles(x >> 4, n - 1)
  }

  /** The sum of the low n bytes of x. */
  function Bytes(x: bv64, n: nat): nat
    decreases n
  {
    if n == 0 then 0 else (x & 255) as nat + Bytes(x >> 8, n - 1)
  }

  /** The first step subtracts, without borrows across fields, what the sum adds. */
  lemma SubAsSum(x: bv64)
    ensures PairCounts(x) == PairSums(x)
  {
  }

  lemma PairStep(x: bv64)
    ensures PairSums(x) >> 2 == PairSums(x >> 2)
    ensures (PairSums(x) & 3) as nat == Low(x) + Low(x >> 1)
    ensures (x >> 1) >> 1 == x >> 2
  {
  }

  /** One 2-bit field off the field sums. */
  lemma PairsUnfold(x: bv64, n: nat)
    requires 0 < n
    ensures Pairs(PairSums(x), n) == Low(x) + Low(x >> 1) + Pairs(PairSums(x >> 2), n - 1)
  {
    var y := PairSums(x);
    assert Pairs(y, n) == (y & 3) as nat + Pairs(y >> 2, n - 1);
    PairStep(x);
  }

  /** Two bits off the count. */
  lemma CountTwo(x: bv64, n: nat)
    requires 0 < n
    ensures CountFrom(x, 2 * n) == Low(x) + Low(x >> 1) + CountFrom(x >> 2, 2 * (n - 1))
  {
    Unfold(x, 2 * n);
    Unfold(x >> 1, 2 * n - 1);
    assert (x >> 1) >> 1 == x >> 2;
  }

  /** The 2-bit field sums of x add up to the set bits of x. */
  lemma {:induction false} PairsCount(x: bv64, n: nat)
    ensures Pairs(PairSums(x), n) == CountFrom(x, 2 * n)
    decreases n
  {
    if n > 0 {
      PairsUnfold(x, n);
      CountTwo(x, n);
      PairsCount(x >> 2, n - 1);
    }
  }

  lemma NibbleStep(x: bv64)
    ensures NibbleSums(x) >> 4 == NibbleSums(x >> 4)
    ensures (NibbleSums(x) & 15) as nat == (x & 3) as nat + ((x >> 2) & 3) as nat
    ensures (x >> 2) >> 2 == x >> 4
  {
  }

  /** No 4-bit field sum reaches 8. */
  lemma NibbleSmall(x: bv64)
    ensures NibbleSums(x) & 0x8888888888888888 == 0
  {
  }

  lemma {:induction false} NibblesPairs(x: bv64, n: nat)
    ensures Nibbles(NibbleSums(x), n) == Pairs(x, 2 * n)
    decreases n
  {
    if n > 0 {
      NibbleStep(x);
      NibblesPairs(x >> 4, n - 1);
    }
  }

  lemma ByteStep(x: bv64)
    requires x & 0x8888888888888888 == 0
    ensures ByteSums(x) >> 8 == ByteSums(x >> 8)
    ensures (ByteSums(x) & 255) as nat == (x & 15) as nat + ((x >> 4) & 15) as nat
    ensures (x >> 4) >> 4 == x >> 8
    ensures (x >> 8) & 0x8888888888888888 == 0
  {
  }

  /** With every 4-bit field below 8, adding neighbouring fields never carries. */
  lemma {:induction false} BytesNibbles(x: bv64, n: nat)
    requires x & 0x8888888888888888 == 0
    ensures Bytes(ByteSums(x), n) == Nibbles(x, 2 * n)
    decreases n
  {
    if n > 0 {
      ByteStep(x);
      BytesNibbles(x >> 8, n - 1);
    }
  }

  /** Every byte sum is below 16. */
  lemma ByteSmall(x: bv64)
    ensures ByteSums(x) & 0xF0F0F0F0F0F0F0F0 == 0
  {
  }

  /** The eight byte terms of Bytes(y, 8), each shifted from y directly. */
  lemma BytesUnrolled(y: bv64)
    ensures Bytes(y, 8) ==
      (y & 255) as nat + ((y >> 8) & 255) as nat + ((y >> 16) & 255) as nat + ((y >> 24) & 255) as nat +
      ((y >> 32) & 255) as nat + ((y >> 40) & 255) as nat + ((y >> 48) & 255) as nat + ((y >> 56) & 255) as nat
  {
    ShiftBytes(y);
    assert Bytes(y >> 56, 1) == ((y >> 56) & 255) as nat + Bytes((y >> 56) >> 8, 0);
  }

  lemma ShiftBytes(y: bv64)
    ensures (y >> 8) >> 8 == y >> 16 && (y >> 16) >> 8 == y >> 24 && (y >> 24) >> 8 == y >> 32
    ensures (y >> 32) >> 8 == y >> 40 && (y >> 40) >> 8 == y >> 48 && (y >> 48) >> 8 == y >> 56
  {
  }

  // The multiply by 0x0101010101010101 as a prefix sum over bytes:
  // adding a copy shifted by one byte, then two, then four.

  lemma MulStep1(y: bv64)
    ensures y * 0x0101010101010101 == (y + (y << 8)) * 0x0001000100010001
  {
  }

  lemma MulStep2(y: bv64)
    ensures y * 0x0001000100010001 == (y + (y << 16)) * 0x0000000100000001
  {
  }

  lemma MulStep3(y: bv64)
    ensures y * 0x0000000100000001 == y + (y << 32)
  {
  }

  lemma MulStep32(y: bv64)
    ensures y * 0x01010101 == (y + (y << 8)) * 0x00010001
    ensures y * 0x00010001 == y + (y << 16)
  {
  }

  /** Bytes below 16: adding the copy one byte up sums neighbouring bytes, each below 32. */
  lemma Prefix1(y: bv64)
    requires y & 0xF0F0F0F0F0F0F0F0 == 0
    ensures (y + (y << 8)) & 0xE0E0E0E0E0E0E0E0 == 0
    ensures ((y + (y << 8)) >> 56) & 255 == ((y >> 56) & 255) + ((y >> 48) & 255)
    ensures ((y + (y << 8)) >> 40) & 255 == ((y >> 40) & 255) + ((y >> 32) & 255)
    ensures ((y + (y << 8)) >> 24) & 255 == ((y >> 24) & 255) + ((y >> 16) & 255)
    ensures ((y + (y << 8)) >> 8) & 255 == ((y >> 8) & 255) + (y & 255)
  {
  }

  /** Bytes below 32: adding the copy two bytes up, each sum below 64. */
  lemma Prefix2(p: bv64)
    requires p & 0xE0E0E0E0E0E0E0E0 == 0
    ensures (p + (p << 16)) & 0xC0C0C0C0C0C0C0C0 == 0
    ensures ((p + (p << 16)) >> 56) & 255 == ((p >> 56) & 255) + ((p >> 40) & 255)
    ensures ((p + (p << 16)) >> 24) & 255 == ((p >> 24) & 255) + ((p >> 8) & 255)
  {
  }

  /** Bytes below 64: adding the copy four bytes up, the top byte is the sum of bytes 7 and 3. */
  lemma Prefix3(p: bv64)
    requires p & 0xC0C0C0C0C0C0C0C0 == 0
    ensures (p + (p << 32)) >> 56 == ((p >> 56) & 255) + ((p >> 24) & 255)
  {
  }

  /** A sum of byte fields taken as a number is the sum of their numbers. */
  lemma ByteTotal(y: bv64)
    ensures ToNat(GroupSum(y)) ==
      ToNat(y & 255) + ToNat((y >> 8) & 255) + ToNat((y >> 16) & 255) + ToNat((y >> 24) & 255) +
      ToNat((y >> 32) & 255) + ToNat((y >> 40) & 255) + ToNat((y >> 48) & 255) + ToNat((y >> 56) & 255)
  {
  }

  /** A bit-vector taken as a number. */
  function ToNat(b: bv64): nat
  {
    b as nat
  }

  /** The eight bytes of `y` added pairwise, as the prefix sum groups them. */
  function GroupSum(y: bv64): bv64
  {
    (((y >> 56) & 255) + ((y >> 48) & 255)) + (((y >> 40) & 255) + ((y >> 32) & 255)) +
    ((((y >> 24) & 255) + ((y >> 16) & 255)) + (((y >> 8) & 255) + (y & 255)))
  }

  /** With every byte below 16, the top byte of the multiply is the sum of the bytes. */
  lemma TopByte(y: bv64)
    requires y & 0xF0F0F0F0F0F0F0F0 == 0
    ensures TopOf(y) as nat == Bytes(y, 8)
  {
    TopByteBits(y);
    ByteTotal(y);
    BytesUnrolled(y);
  }

  lemma TopByteBits(y: bv64)
    requires y & 0xF0F0F0F0F0F0F0F0 == 0
    ensures TopOf(y) == GroupSum(y)
  {
    var p1 := y + (y << 8);
    var p2 := p1 + (p1 << 16);
    MulStep1(y);
    MulStep2(p1);
    MulStep3(p2);
    Prefix1(y);
    Prefix2(p1);
    Prefix3(p2);
  }

  /** The same top byte, for a value below 2^32, from a multiply that wraps at 32 bits. */
  lemma TopByte32(y: bv64)
    requires y & 0xF0F0F0F0F0F0F0F0 == 0 && y & 0xFFFFFFFF00000000 == 0
    ensures Top32(y) == TopOf(y)
  {
    var p1 := y + (y << 8);
    var p2 := p1 + (p1 << 16);
    MulStep1(y);
    MulStep2(p1);
    MulStep3(p2);
    MulStep32(y);
    MulStep32(p1);
    Prefix1(y);
    Prefix2(p1);
    Prefix3(p2);
    HighBytes(y);
    Cut32(p2);
  }

  lemma HighBytes(y: bv64)
    requires y & 0xF0F0F0F0F0F0F0F0 == 0 && y & 0xFFFFFFFF00000000 == 0
    ensures ((y + (y << 8)) >> 56) & 255 == 0 && ((y + (y << 8)) >> 40) & 255 == 0
  {
  }

  lemma Cut32(p: bv64)
    ensures (p & 0xFFFFFFFF) >> 24 == (p >> 24) & 255
  {
  }

  /** Below 2^32 the 32-bit masks of bitCount32 act as the 64-bit ones, and each step stays below 2^32. */
  lemma NarrowPairs(x: bv64)
    requires x & 0xFFFFFFFF00000000 == 0
    ensures PairCounts32(x) == PairCounts(x) && PairSums(x) & 0xFFFFFFFF00000000 == 0
  {
  }

  lemma NarrowNibbles(x: bv64)
    requires x & 0xFFFFFFFF00000000 == 0
    ensures NibbleSums32(x) == NibbleSums(x) && NibbleSums(x) & 0xFFFFFFFF00000000 == 0
  {
  }

  lemma NarrowBytes(x: bv64)
    requires x & 0xFFFFFFFF00000000 == 0 && x & 0x8888888888888888 == 0
    ensures ByteSums32(x) == ByteSums(x) && ByteSums(x) & 0xFFFFFFFF00000000 == 0
  {
  }

  /** At most n bits are counted among n. */
  lemma {:induction false} CountBound(x: bv64, n: nat)
    ensures CountFrom(x, n) <= n
    decreases n
  {
    if n > 0 {
      Unfold(x, n);
      CountBound(x >> 1, n - 1);
    }
  }
}
