/**
 * Size arithmetic and the bit-index map of the `bitnet` helpers
 * (src/util/bit_helper.h): padding a bit count up to the SIMD width,
 * turning a bit count into a byte ("block") count, and the MSB-first
 * map from a bit index to a (byte, bit-in-byte) pair.
 *
 * C++ `int` division and remainder truncate toward zero; they are written
 * out as `TruncDiv`/`TruncMod` because Dafny's `/` and `%` are Euclidean.
 * `AddPaddingToBitSize` computes through `double` and `BitToBlockCount`
 * through `float`; both conversions are modelled exactly below.
 *
 * Contracts write the widths as literals (8 for `BYTE_BIT_WIDTH`, 256 for
 * `SIMD_BIT_WIDTH`), which keeps the arithmetic about them linear.
 */
module Layout {

  const BYTE_BIT_WIDTH: int := 8
  const POPCNT_BIT_WIDTH: int := 64
  const SIMD_BIT_WIDTH: int := 256

  /**
   * Largest bit count whose padded size is still an `int`; a layer wider
   * than this makes the constexpr size computation overflow.
   */
  const MAX_LAYER_DIM: int := 0x7FFF_FF00

  /** The values of a C++ `int`. */
  type Int32 = x: int | -0x8000_0000 <= x < 0x8000_0000

  /** C++ integer division: truncates toward zero. */
  function TruncDiv(a: int, d: int): (q: int)
    requires d > 0
    ensures a >= 0 ==> d * q <= a < d * q + d
    ensures a < 0 ==> d * q - d < a <= d * q
  {
    if a >= 0 then a / d else -((-a) / d)
  }

  /** C++ integer remainder: takes the sign of the dividend. */
  function TruncMod(a: int, d: int): (m: int)
    requires d > 0
    ensures a == d * TruncDiv(a, d) + m
    ensures a >= 0 ==> 0 <= m < d
    ensures a < 0 ==> -d < m <= 0
  {
    a - d * TruncDiv(a, d)
  }

  /** The mathematical ceiling of a / d, for a positive divisor. */
  function CeilDiv(a: int, d: int): (q: int)
    requires d > 0
    ensures d * q - d < a <= d * q
  {
    -((-a) / d)
  }

  /**
   * `ceil(bitSize / (double)SIMD_BIT_WIDTH) * SIMD_BIT_WIDTH`. Every `int`
   * is exact in a double, dividing by 256 is exact, and so is `ceil`, so the
   * double computation is the exact ceiling. The result is the unique
   * multiple of 256 in [n, n + 256).
   */
  function AddPaddingToBitSize(n: Int32): (r: int)
    ensures r % 256 == 0
    ensures n <= r < n + 256
    ensures n == 0 ==> r == 0
    ensures n <= 0x7FFF_FF00 ==> r < 0x8000_0000
  {
    CeilDiv(n, 256) * 256
  }

  // ---------------------------------------------------------------------
  // Single-precision rounding of an int (round to nearest, ties to even,
  // 24-bit significand), as done by the conversion of `bitSize` to `float`.

  const FLOAT_SIGNIFICAND: int := 0x100_0000

  function Pow2(k: nat): (p: nat)
    ensures p >= 1
  {
    if k == 0 then 1 else 2 * Pow2(k - 1)
  }

  /**
   * `n` rounded to a float, shifting out one low bit at a time. `sticky`
   * records that a set bit was already shifted out, so the value lies
   * strictly above `n` (at the current scale); the recursion sets it and
   * only ever reaches magnitudes of at least 2^24. Once `n` has 25 bits the
   * last bit decides: 0 is exact, 1 is a tie broken towards the even
   * significand unless `sticky` puts the value past the midpoint.
   */
  function Round(n: nat, sticky: bool): (r: nat)
    ensures n < FLOAT_SIGNIFICAND ==> r == n
    ensures n >= FLOAT_SIGNIFICAND ==> FLOAT_SIGNIFICAND <= r <= 2 * n
  {
    if n < FLOAT_SIGNIFICAND then n
    else
      var half := n / 2;
      var up := n % 2 == 1 && (sticky || half % 2 == 1);
      var kept :=
        if n < 2 * FLOAT_SIGNIFICAND then (if up then half + 1 else half)
        else Round(half, sticky || n % 2 == 1);
      2 * kept
  }

  /** The value of `(float)n`; rounding is symmetric in the sign. */
  function FloatOf(n: int): (r: int)
    ensures n >= 0 ==> r >= 0
    ensures n <= 0 ==> r <= 0
    ensures -FLOAT_SIGNIFICAND < n < FLOAT_SIGNIFICAND ==> r == n
  {
    if n >= 0 then Round(n, false) else var m: int := Round(-n, false); -m
  }

  /**
   * `ceil(bitSize / (float)BYTE_BIT_WIDTH)` as written: `bitSize` is rounded
   * to a float first. Dividing by 8 and taking `ceil` are exact afterwards,
   * so only the first rounding matters.
   */
  function BitToBlockCountAsWritten(n: Int32): (r: int)
    ensures n >= 0 ==> r >= 0
  {
    CeilDiv(FloatOf(n), BYTE_BIT_WIDTH)
  }

  /** The number of bytes needed for `n` bits: the intended ceiling of n / 8. */
  function BitToBlockCount(n: int): (r: int)
    ensures n <= 8 * r < n + 8
    ensures n >= 0 ==> r >= 0
  {
    CeilDiv(n, BYTE_BIT_WIDTH)
  }

  /** Byte holding bit `i`. */
  function GetBlockIndex(i: int): (r: int)
    ensures i >= 0 ==> 0 <= r && 8 * r <= i < 8 * r + 8
  {
    TruncDiv(i, BYTE_BIT_WIDTH)
  }

  /** Shift of bit `i` inside its byte: bit 0 of the sequence is the byte's MSB. */
  function GetBitIndexInBlock(i: int): (r: int)
    ensures i >= 0 ==> 0 <= r < 8
    ensures i >= 0 ==> i == 8 * GetBlockIndex(i) + (7 - r)
  {
    BYTE_BIT_WIDTH - TruncMod(i, BYTE_BIT_WIDTH) - 1
  }

  // ---------------------------------------------------------------------
  // Lemmas

  /** Two non-negative bit indices with the same (byte, shift) pair are equal. */
  lemma IndexMapInjective(i: int, j: int)
    requires i >= 0 && j >= 0
    requires GetBlockIndex(i) == GetBlockIndex(j)
    requires GetBitIndexInBlock(i) == GetBitIndexInBlock(j)
    ensures i == j
  {
  }

  /** Every (byte, shift) pair is hit, by bit 8k + 7 - s. */
  lemma IndexMapSurjective(k: nat, s: int)
    requires 0 <= s < 8
    ensures GetBlockIndex(8 * k + 7 - s) == k
    ensures GetBitIndexInBlock(8 * k + 7 - s) == s
  {
  }

  /** Integers of magnitude at most 2^24 are exact in a float. */
  lemma FloatExactBelowSignificand(n: int)
    requires -FLOAT_SIGNIFICAND <= n <= FLOAT_SIGNIFICAND
    ensures FloatOf(n) == n
  {
    var m := if n >= 0 then n else -n;
    assert m % 2 == 0 || m < FLOAT_SIGNIFICAND;
  }

  /** The powers of two up to 2^7. */
  lemma Pow2Table()
    ensures Pow2(0) == 1 && Pow2(1) == 2 && Pow2(2) == 4 && Pow2(3) == 8
    ensures Pow2(4) == 16 && Pow2(5) == 32 && Pow2(6) == 64 && Pow2(7) == 128
  {
    assert Pow2(1) == 2;
    assert Pow2(2) == 4;
    assert Pow2(3) == 8;
    assert Pow2(4) == 16;
    assert Pow2(5) == 32;
    assert Pow2(6) == 64;
  }

  /** The `k` lowest bits of `n` are all zero. */
  predicate LowBitsZero(n: nat, k: nat)
  {
    k == 0 || (n % 2 == 0 && LowBitsZero(n / 2, k - 1))
  }

  /** Doubling shifts in one more zero bit. */
  lemma DoubleLowBitsZero(n: nat, k: nat)
    requires LowBitsZero(n, k)
    ensures LowBitsZero(2 * n, k + 1)
  {
    assert (2 * n) / 2 == n;
  }

  /** A multiple of 256 has its seven lowest bits zero. */
  lemma PaddedLowBitsZero(n: nat)
    requires n % 256 == 0
    ensures LowBitsZero(n, 7)
  {
    var t := n / 256;
    DoubleLowBitsZero(2 * t, 0);
    DoubleLowBitsZero(4 * t, 1);
    DoubleLowBitsZero(8 * t, 2);
    DoubleLowBitsZero(16 * t, 3);
    DoubleLowBitsZero(32 * t, 4);
    DoubleLowBitsZero(64 * t, 5);
    DoubleLowBitsZero(128 * t, 6);
  }

  /**
   * A number below 2^(24 + k) whose k lowest bits are zero fits in a
   * 24-bit significand, so rounding leaves it unchanged.
   */
  lemma {:induction false} RoundExact(n: nat, k: nat)
    requires LowBitsZero(n, k) && n < FLOAT_SIGNIFICAND * Pow2(k)
    ensures Round(n, false) == n
    decreases n
  {
    if n >= 2 * FLOAT_SIGNIFICAND {
      assert k > 0;
      assert n / 2 < FLOAT_SIGNIFICAND * Pow2(k - 1);
      RoundExact(n / 2, k - 1);
    }
  }

  /** Multiples of 256 below 2^31 are exact in a float. */
  lemma FloatExactForPadded(n: nat)
    requires n % 256 == 0 && n < 0x8000_0000
    ensures FloatOf(n) == n
  {
    Pow2Table();
    PaddedLowBitsZero(n);
    RoundExact(n, 7);
  }

  /**
   * Rounding never passes a number `m` at or above `n` whose k lowest bits
   * are zero: `m` is itself a float, and rounding moves to one of the two
   * floats around `n`. With a sticky bit the value lies above `n`, so it
   * needs `n < m`.
   */
  lemma {:induction false} RoundAtMost(n: nat, sticky: bool, m: nat, k: nat)
    requires n <= m && (sticky ==> n < m)
    requires LowBitsZero(m, k) && n < FLOAT_SIGNIFICAND * Pow2(k)
    ensures Round(n, sticky) <= m
    decreases n
  {
    if n >= FLOAT_SIGNIFICAND {
      assert k > 0;
      if n >= 2 * FLOAT_SIGNIFICAND {
        assert n / 2 < FLOAT_SIGNIFICAND * Pow2(k - 1);
        RoundAtMost(n / 2, sticky || n % 2 == 1, m / 2, k - 1);
      }
    }
  }

  /** Rounding a bit count below 2^31 never passes a multiple of 256 at or above it. */
  lemma RoundAtMostPadded(n: nat, m: nat)
    requires n <= m && m % 256 == 0 && n < 0x8000_0000
    ensures Round(n, false) <= m
  {
    Pow2Table();
    PaddedLowBitsZero(m);
    RoundAtMost(n, false, m, 7);
  }

  /**
   * Rounding at one binade, with the sticky bit: for n in [2^(24+k), 2^(25+k))
   * the float spacing is 2^(k+1). The result is a multiple of it at most
   * half a spacing from n; with a sticky bit the value lies above n, so the
   * result is never a full half spacing below; and an exact tie goes to the
   * even significand, a multiple of 2^(k+2).
   */
  lemma {:induction false} RoundNearestSticky(n: nat, sticky: bool, k: nat)
    requires FLOAT_SIGNIFICAND * Pow2(k) <= n < FLOAT_SIGNIFICAND * Pow2(k + 1)
    ensures LowBitsZero(Round(n, sticky), k + 1)
    ensures n - Pow2(k) <= Round(n, sticky) <= n + Pow2(k)
    ensures sticky ==> n - Pow2(k) < Round(n, sticky)
    ensures !sticky && (Round(n, sticky) == n + Pow2(k) || Round(n, sticky) + Pow2(k) == n)
            ==> LowBitsZero(Round(n, sticky), k + 2)
    decreases k
  {
    if k == 0 {
      RoundLastBit(n, sticky);
    } else {
      var half := n / 2;
      var sticky' := sticky || n % 2 == 1;
      assert Pow2(k) == 2 * Pow2(k - 1);
      assert FLOAT_SIGNIFICAND * Pow2(k - 1) <= half < FLOAT_SIGNIFICAND * Pow2(k);
      RoundNearestSticky(half, sticky', k - 1);
      var r' := Round(half, sticky');
      assert Round(n, sticky) == 2 * r';
      assert n == 2 * half + n % 2;
      DoubleLowBitsZero(r', k);
      if !sticky && (2 * r' == n + Pow2(k) || 2 * r' + Pow2(k) == n) {
        assert n % 2 == 0;
        DoubleLowBitsZero(r', k + 1);
      }
    }
  }

  /** The binade [2^24, 2^25), where one bit is shifted out: the k = 0 case above. */
  lemma RoundLastBit(n: nat, sticky: bool)
    requires FLOAT_SIGNIFICAND <= n < 2 * FLOAT_SIGNIFICAND
    ensures LowBitsZero(Round(n, sticky), 1)
    ensures n - 1 <= Round(n, sticky) <= n + 1
    ensures sticky ==> n <= Round(n, sticky)
    ensures !sticky && (Round(n, sticky) == n + 1 || Round(n, sticky) + 1 == n)
            ==> LowBitsZero(Round(n, sticky), 2)
  {
    var kept := Round(n, sticky) / 2;
    assert Round(n, sticky) == 2 * kept;
    DoubleLowBitsZero(kept, 0);
    if n % 2 == 1 && !sticky {
      assert kept % 2 == 0;
      assert LowBitsZero(kept / 2, 0);
      DoubleLowBitsZero(kept, 1);
    }
  }

  /** The binade of n: the k with 2^(24+k) <= n < 2^(25+k). */
  lemma {:induction false} Binade(n: nat) returns (k: nat)
    requires n >= FLOAT_SIGNIFICAND
    ensures FLOAT_SIGNIFICAND * Pow2(k) <= n < FLOAT_SIGNIFICAND * Pow2(k + 1)
    decreases n
  {
    if n < 2 * FLOAT_SIGNIFICAND {
      k := 0;
      assert Pow2(1) == 2;
    } else {
      var k' := Binade(n / 2);
      k := k' + 1;
      assert Pow2(k + 1) == 2 * Pow2(k);
    }
  }

  lemma {:induction false} Pow2Monotone(a: nat, b: nat)
    ensures a <= b ==> Pow2(a) <= Pow2(b)
    decreases b
  {
    if a < b {
      Pow2Monotone(a, b - 1);
    }
  }

  /**
   * `(float)n` for n in [2^(24+k), 2^(25+k)) is the nearest multiple of the
   * spacing 2^(k+1), and on an exact tie the one with an even significand.
   * These three facts determine the result.
   */
  lemma RoundNearest(n: nat, k: nat)
    requires FLOAT_SIGNIFICAND * Pow2(k) <= n < FLOAT_SIGNIFICAND * Pow2(k + 1)
    ensures LowBitsZero(Round(n, false), k + 1)
    ensures n - Pow2(k) <= Round(n, false) <= n + Pow2(k)
    ensures Round(n, false) == n + Pow2(k) || Round(n, false) + Pow2(k) == n
            ==> LowBitsZero(Round(n, false), k + 2)
  {
    RoundNearestSticky(n, false, k);
  }

  /**
   * The as-written byte count of a layer width fits in the padded row:
   * eight times it is at most `AddPaddingToBitSize(n)`.
   */
  lemma BlockCountWithinPadding(n: Int32)
    requires 0 <= n <= MAX_LAYER_DIM
    ensures 0 <= BitToBlockCountAsWritten(n)
    ensures 8 * BitToBlockCountAsWritten(n) <= AddPaddingToBitSize(n)
  {
    var m := AddPaddingToBitSize(n);
    RoundAtMostPadded(n, m);
    var c := CeilDiv(n, 256);
    assert m == 8 * (32 * c);
    var q := CeilDiv(FloatOf(n), 8);
    assert 8 * q < m + 8;
    assert q <= 32 * c;
  }

  /** A padded size converts exactly, so its as-written byte count is exactly an eighth of it. */
  lemma PaddedBlockCount(n: Int32)
    requires n >= 0 && n % 256 == 0
    ensures 8 * BitToBlockCountAsWritten(n) == n
  {
    FloatExactForPadded(n);
    var t := n / 256;
    assert n == 8 * (32 * t);
    var q := CeilDiv(n, 8);
    assert 8 * q - 8 < 8 * (32 * t) <= 8 * q;
    assert q == 32 * t;
  }

  /**
   * Where the source's float computation is exact: every bit count of
   * magnitude at most 2^24, and every padded size below 2^31.
   */
  lemma BitToBlockCountAgrees(n: Int32)
    requires (-FLOAT_SIGNIFICAND <= n <= FLOAT_SIGNIFICAND)
          || (n >= 0 && n % 256 == 0)
    ensures BitToBlockCountAsWritten(n) == BitToBlockCount(n)
  {
    if n >= 0 && n % 256 == 0 {
      FloatExactForPadded(n);
    } else {
      FloatExactBelowSignificand(n);
    }
  }

  /**
   * 16777217 = 2^24 + 1 rounds to 2^24 as a float, so the as-written block
   * count is one byte short of holding all the bits. The smallest such
   * width; wider ones are off by up to 8 bytes either way
   * (`AsWrittenWithinEightBytes`, `BitToBlockCountFloatOffByEight`).
   */
  lemma BitToBlockCountFloatLosesAByte()
    ensures BitToBlockCountAsWritten(0x100_0001) == 0x20_0000
    ensures BitToBlockCount(0x100_0001) == 0x20_0001
    ensures 8 * BitToBlockCountAsWritten(0x100_0001) < 0x100_0001
  {
    assert Round(0x100_0001, false) == 0x100_0000;
  }

  /**
   * Below 2^(25+j) the float rounding moves a non-negative int by at most
   * 2^j: n lies in a binade k <= j, where the half spacing is 2^k.
   */
  lemma FloatWithin(n: nat, j: nat)
    requires n < FLOAT_SIGNIFICAND * Pow2(j + 1)
    ensures n - Pow2(j) <= FloatOf(n) <= n + Pow2(j)
  {
    if n >= FLOAT_SIGNIFICAND {
      var k := Binade(n);
      RoundNearest(n, k);
      Pow2Monotone(j + 1, k);
      Pow2Monotone(k, j);
    }
  }

  /**
   * Over the whole range the helper accepts, up to `MAX_LAYER_DIM`, the
   * float rounding moves the bit count by at most 64 (the widest binade
   * below 2^31 has spacing 128), so the as-written byte count is off by at
   * most 8 bytes, in either direction. No layer is that wide: the batch
   * buffers' `int` array bounds keep every layer below 2^30 bits.
   */
  lemma AsWrittenWithinEightBytes(n: Int32)
    requires 0 <= n <= MAX_LAYER_DIM
    ensures -8 <= BitToBlockCountAsWritten(n) - BitToBlockCount(n) <= 8
  {
    Pow2Table();
    FloatWithin(n, 6);
  }

  /**
   * Both directions of the helper's error are reached, at widths beyond
   * every layer's: 2^30 + 64 ties down to 2^30 and loses 8 bytes; 2^30 + 65
   * rounds up to 2^30 + 128 and gains 7.
   */
  lemma BitToBlockCountFloatOffByEight()
    ensures BitToBlockCountAsWritten(0x4000_0040) == 0x800_0000
    ensures BitToBlockCount(0x4000_0040) == 0x800_0008
    ensures BitToBlockCountAsWritten(0x4000_0041) == 0x800_0010
    ensures BitToBlockCount(0x4000_0041) == 0x800_0009
  {
    assert Round(0x100_0001, false) == 0x100_0000;
    assert Round(0x200_0002, false) == 0x200_0000;
    assert Round(0x400_0004, false) == 0x400_0000;
    assert Round(0x800_0008, false) == 0x800_0000;
    assert Round(0x1000_0010, false) == 0x1000_0000;
    assert Round(0x2000_0020, false) == 0x2000_0000;
    assert Round(0x4000_0040, false) == 0x4000_0000;
    assert Round(0x100_0001, true) == 0x100_0002;
    assert Round(0x200_0002, true) == 0x200_0004;
    assert Round(0x400_0004, true) == 0x400_0008;
    assert Round(0x800_0008, true) == 0x800_0010;
    assert Round(0x1000_0010, true) == 0x1000_0020;
    assert Round(0x2000_0020, true) == 0x2000_0040;
    assert Round(0x4000_0041, false) == 0x4000_0080;
  }
}
