/**
 * The global-scope declarations of src/net_common.h: the batch size, the
 * element types, and copies of the size and index helpers of the `bitnet`
 * namespace. Each copy is proved to compute what its `Layout` counterpart
 * computes, so every file that includes either header sees one bit layout.
 */
module NetCommon {
  import Layout
  import Bits

  const BATCH_SIZE: nat := 16
  const BYTE_BIT_WIDTH: int := 8
  const SIMD_BIT_WIDTH: int := 256

  /** `BitBlock` / `BitWeight`: one byte of packed bits. */
  type BitBlock = Bits.Byte

  /** `IntBitType` / `int8_t`. */
  type Int8 = x: int | -128 <= x < 128

  function AddPaddingToBitSize(n: Layout.Int32): (r: int)
    ensures r == Layout.AddPaddingToBitSize(n)
  {
    Layout.CeilDiv(n, SIMD_BIT_WIDTH) * SIMD_BIT_WIDTH
  }

  function BitToBlockCount(n: Layout.Int32): (r: int)
    ensures r == Layout.BitToBlockCountAsWritten(n)
  {
    Layout.CeilDiv(Layout.FloatOf(n), BYTE_BIT_WIDTH)
  }

  function GetBlockIndex(i: int): (r: int)
    ensures r == Layout.GetBlockIndex(i)
  {
    Layout.TruncDiv(i, BYTE_BIT_WIDTH)
  }

  function GetBitIndexInBlock(i: int): (r: int)
    ensures r == Layout.GetBitIndexInBlock(i)
  {
    BYTE_BIT_WIDTH - Layout.TruncMod(i, BYTE_BIT_WIDTH) - 1
  }

  // ---------------------------------------------------------------------
  // The constexpr sizes every bit-packed layer derives from its width
  // (`COMPRESS_OUT_BLOCKS`, `PADDED_OUT_BITS`, `PADDED_OUT_BLOCKS`), computed
  // with the `bitnet::` helpers as written. A width above `MAX_LAYER_DIM`
  // overflows `int` in the padding computation, which makes the constexpr
  // ill-formed, so the size functions stop there. A layer is narrower still:
  // its batch buffer `_outputBatchBuffer[BATCH_SIZE * PADDED_OUT_BLOCKS]`
  // needs an array bound that is an `int`, which holds exactly up to
  // `MAX_BIT_LAYER_DIM` (`BatchBufferFits`).

  /** Widest width whose batch buffer bound `BATCH_SIZE * PADDED_OUT_BLOCKS` is an `int`. */
  const MAX_BIT_LAYER_DIM: int := 0x3FFF_FF00

  /** `COMPRESS_OUT_BLOCKS = BitToBlockCount(width)`: the data bytes, float rounding included. */
  function CompressOutBlocks(bits: nat): (r: nat)
    requires bits <= Layout.MAX_LAYER_DIM
    ensures 8 * r <= PaddedOutBits(bits)
  {
    Layout.BlockCountWithinPadding(bits);
    Layout.BitToBlockCountAsWritten(bits)
  }

  /** `PADDED_OUT_BITS = AddPaddingToBitSize(COMPRESS_OUT_BITS)`. */
  function PaddedOutBits(bits: nat): (r: nat)
    requires bits <= Layout.MAX_LAYER_DIM
    ensures r % 256 == 0
    ensures bits <= r < bits + 256
  {
    Layout.AddPaddingToBitSize(bits)
  }

  /** `PADDED_OUT_BLOCKS = BitToBlockCount(PADDED_OUT_BITS)`: bytes of one padded row. */
  function PaddedOutBlocks(bits: nat): (r: nat)
    requires bits <= Layout.MAX_LAYER_DIM
    ensures 8 * r == PaddedOutBits(bits)
  {
    var n := PaddedOutBits(bits);
    Layout.PaddedBlockCount(n);
    Layout.BitToBlockCountAsWritten(n)
  }

  /**
   * Size facts: the padded row is a whole number of SIMD chunks, its float
   * byte count is exact, and it holds the data bytes.
   */
  lemma PaddedSizes(bits: nat)
    requires bits <= Layout.MAX_LAYER_DIM
    ensures PaddedOutBits(bits) % 256 == 0
    ensures bits <= PaddedOutBits(bits) < bits + 256
    ensures 8 * PaddedOutBlocks(bits) == PaddedOutBits(bits)
    ensures PaddedOutBlocks(bits) % 32 == 0
    ensures CompressOutBlocks(bits) <= PaddedOutBlocks(bits)
  {
    var n := PaddedOutBits(bits);
    Layout.PaddedBlockCount(n);
    Layout.BlockCountWithinPadding(bits);
    var t := n / 256;
    assert n == 256 * t;
    var q := PaddedOutBlocks(bits);
    assert q == 32 * t;
  }

  /**
   * Up to 2^24 bits the float byte count is the exact one; above, it can
   * miss by a few bytes either way (`CompressOutBlocksWithinFourBytes`).
   */
  lemma CompressOutBlocksExact(bits: nat)
    requires bits <= 0x100_0000
    ensures bits <= 8 * CompressOutBlocks(bits) < bits + 8
  {
    Layout.BitToBlockCountAgrees(bits);
  }

  /**
   * `BATCH_SIZE * PADDED_OUT_BLOCKS` fits in an `int` exactly for the widths
   * up to `MAX_BIT_LAYER_DIM`.
   */
  lemma BatchBufferFits(bits: nat)
    requires bits <= Layout.MAX_LAYER_DIM
    ensures bits <= MAX_BIT_LAYER_DIM <==> BATCH_SIZE * PaddedOutBlocks(bits) <= 0x7FFF_FFFF
  {
    var m := PaddedOutBits(bits);
    var t := m / 256;
    assert m == 256 * t;
    assert BATCH_SIZE * PaddedOutBlocks(bits) == 2 * m;
  }

  /**
   * For every width a bit-packed layer can have, the float-rounded
   * `COMPRESS_OUT_BLOCKS` is within 4 bytes of the exact count: below 2^30
   * the float moves the width by at most 32 bits.
   */
  lemma CompressOutBlocksWithinFourBytes(bits: nat)
    requires bits <= MAX_BIT_LAYER_DIM
    ensures -4 <= CompressOutBlocks(bits) - Layout.BitToBlockCount(bits) <= 4
  {
    Layout.Pow2Table();
    assert Layout.Pow2(6) == 64;
    Layout.FloatWithin(bits, 5);
  }

  /** A buffer of n elements holds the first c elements of each of `BATCH_SIZE` rows of stride p. */
  predicate RowsReadable(c: nat, p: nat, n: nat)
  {
    c == 0 || (BATCH_SIZE - 1) * p + c <= n
  }

  /** `memset(buf, 0, n)`: n zero bytes. */
  function Zeros(n: nat): (r: seq<BitBlock>)
    ensures |r| == n
    ensures forall k :: 0 <= k < n ==> r[k] == Bits.BYTE_ZERO
  {
    seq(n, _ => Bits.BYTE_ZERO)
  }

  /** `std::abs` on integers. */
  function Abs(x: int): nat
  {
    if x < 0 then -x else x
  }

  /** `std::abs` on doubles, computed exactly. */
  function AbsReal(x: real): real
  {
    if x < 0.0 then -x else x
  }

  /** The widths declared in both headers coincide. */
  lemma WidthsAgree()
    ensures BYTE_BIT_WIDTH == Layout.BYTE_BIT_WIDTH
    ensures SIMD_BIT_WIDTH == Layout.SIMD_BIT_WIDTH
    ensures SIMD_BIT_WIDTH % BYTE_BIT_WIDTH == 0
  {
  }
}
