/**
 * The XNOR-popcount kernel of src/util/bit_helper.h (`MaddPopcnt`) and
 * src/util/bit_helper.cpp (`Popcnt2562`, `MaddPopcnt2`). A 256-bit SIMD
 * register is a 32-byte chunk; `_mm256_store_si256` into `uint64_t[4]` makes
 * lane i the bytes 8i .. 8i+7, and `__popcnt64` counts a lane's set bits.
 * Both kernels are shown to count, over whole 256-bit chunks, the bit
 * positions where the two buffers agree.
 *
 * In contracts and index arithmetic the widths appear as literals: 256 is
 * `SIMD_BIT_WIDTH`, 32 the bytes of one chunk, 8 the bytes of one 64-bit lane.
 */
module Popcount {
  import Layout
  import Bits

  /**
   * Byte offset of chunk b in `MaddPopcnt2`. The name is used in
   * bit_helper.cpp but declared nowhere; 32 = 256 / 8 is the offset
   * `MaddPopcnt` computes for the same chunk.
   */
  const SIMD_BYTE_WIDTH: int := 32

  /** `__popcnt64` / `_mm_popcnt_u64` of an 8-byte lane. */
  function Popcnt64(lane: seq<Bits.Byte>): nat
    requires |lane| == 8
  {
    Bits.PopcountBytes(lane, 8)
  }

  /**
   * The bits a kernel call with `length` visits: `length / SIMD_BIT_WIDTH`
   * whole chunks (C division); a negative chunk count runs no iteration.
   */
  function ChunkBits(length: Layout.Int32): (r: nat)
    ensures r % 256 == 0
    ensures length >= 0 ==> r <= length < r + 256
    ensures length < 0 ==> r == 0
  {
    var blocks := Layout.TruncDiv(length, 256);
    if blocks <= 0 then 0 else blocks * 256
  }

  /** `b * SIMD_BIT_WIDTH / BYTE_BIT_WIDTH`: the byte offset of chunk b. */
  function BlockShift(b: nat): (r: nat)
    ensures r == 32 * b
  {
    Layout.TruncDiv(b * 256, 8)
  }

  /** Number of set bits of a 256-bit value, summed over its four 64-bit lanes. */
  method Popcnt2562(vec: seq<Bits.Byte>) returns (sum: int)
    requires |vec| == 32
    ensures sum == Bits.Ones(Bits.Unpack(vec), 256)
    ensures sum == Bits.PopcountBytes(vec, 32)
    ensures 0 <= sum <= 256
  {
    sum := 0;
    var i := 0;
    while i < Layout.SIMD_BIT_WIDTH / Layout.POPCNT_BIT_WIDTH
      invariant 0 <= i <= 4
      invariant sum == Bits.PopcountBytes(vec, 8 * i)
    {
      Bits.LanePrefixStep(vec, i);
      sum := sum + Popcnt64(vec[8 * i..8 * i + 8]);
      i := i + 1;
    }
    Bits.OnesIsPopcountBytes(vec, 32);
  }

  /**
   * One iteration of the header kernel's chunk loop: XNOR chunk b of the two
   * buffers and add up the popcounts of the result's four lanes. The lane
   * sum extends the match count from bit 256b to bit 256(b+1).
   */
  method MaddPopcntChunk(bitBlocks: seq<Bits.Byte>, weightBlocks: seq<Bits.Byte>, b: nat) returns (lanes: int)
    requires 32 * b + 32 <= |bitBlocks| && 32 * b + 32 <= |weightBlocks|
    ensures Bits.Matches(Bits.Unpack(bitBlocks), Bits.Unpack(weightBlocks), 256 * (b + 1))
         == Bits.Matches(Bits.Unpack(bitBlocks), Bits.Unpack(weightBlocks), 256 * b) + lanes
  {
    var blockShift := BlockShift(b);
    var mul := Bits.XnorBytes(bitBlocks[blockShift..blockShift + 32], weightBlocks[blockShift..blockShift + 32]);
    lanes := 0;
    var i := 0;
    while i < Layout.SIMD_BIT_WIDTH / Layout.POPCNT_BIT_WIDTH
      invariant 0 <= i <= 4
      invariant lanes == Bits.PopcountBytes(mul, 8 * i)
    {
      Bits.LanePrefixStep(mul, i);
      lanes := lanes + Popcnt64(mul[8 * i..8 * i + 8]);
      i := i + 1;
    }
    assert lanes == Bits.PopcountBytes(mul, 32);
    Bits.XnorSliceStep(bitBlocks, weightBlocks, blockShift, 32, 256 * b, 256 * (b + 1));
  }

  /**
   * The header kernel: per 256-bit chunk, XNOR the two chunks and add the
   * popcounts of the result's four lanes. The result counts the agreeing
   * bit positions over the whole chunks that fit in `length`.
   */
  method MaddPopcnt(bitBlocks: seq<Bits.Byte>, weightBlocks: seq<Bits.Byte>, length: Layout.Int32) returns (sum: int)
    requires ChunkBits(length) <= 8 * |bitBlocks| && ChunkBits(length) <= 8 * |weightBlocks|
    ensures sum == Bits.Matches(Bits.Unpack(bitBlocks), Bits.Unpack(weightBlocks), ChunkBits(length))
    ensures 0 <= sum <= ChunkBits(length)
  {
    var blocks := Layout.TruncDiv(length, 256);
    var chunks := if blocks <= 0 then 0 else blocks;
    assert ChunkBits(length) == 256 * chunks;
    sum := 0;
    var b := 0;
    while b < blocks
      invariant 0 <= b <= chunks
      invariant sum == Bits.Matches(Bits.Unpack(bitBlocks), Bits.Unpack(weightBlocks), 256 * b)
    {
      var lanes := MaddPopcntChunk(bitBlocks, weightBlocks, b);
      sum := sum + lanes;
      b := b + 1;
    }
  }

  /**
   * One iteration of the .cpp kernel's chunk loop: XNOR chunk b, read at byte
   * offset `b * SIMD_BYTE_WIDTH`, and count it with `Popcnt2562`.
   */
  method MaddPopcnt2Chunk(bitBlocks: seq<Bits.Byte>, weightBlocks: seq<Bits.Byte>, b: nat) returns (chunk: int)
    requires 32 * b + 32 <= |bitBlocks| && 32 * b + 32 <= |weightBlocks|
    ensures Bits.Matches(Bits.Unpack(bitBlocks), Bits.Unpack(weightBlocks), 256 * (b + 1))
         == Bits.Matches(Bits.Unpack(bitBlocks), Bits.Unpack(weightBlocks), 256 * b) + chunk
  {
    var off := b * SIMD_BYTE_WIDTH;
    assert off == 32 * b;
    var mul := Bits.XnorBytes(bitBlocks[off..off + 32], weightBlocks[off..off + 32]);
    chunk := Popcnt2562(mul);
    Bits.XnorSliceStep(bitBlocks, weightBlocks, off, 32, 256 * b, 256 * (b + 1));
  }

  /** The .cpp kernel: the same loop, with each chunk counted by `Popcnt2562`. */
  method MaddPopcnt2(bitBlocks: seq<Bits.Byte>, weightBlocks: seq<Bits.Byte>, length: Layout.Int32) returns (sum: int)
    requires ChunkBits(length) <= 8 * |bitBlocks| && ChunkBits(length) <= 8 * |weightBlocks|
    ensures sum == Bits.Matches(Bits.Unpack(bitBlocks), Bits.Unpack(weightBlocks), ChunkBits(length))
    ensures 0 <= sum <= ChunkBits(length)
  {
    var blocks := Layout.TruncDiv(length, 256);
    var chunks := if blocks <= 0 then 0 else blocks;
    assert ChunkBits(length) == 256 * chunks;
    sum := 0;
    var b := 0;
    while b < blocks
      invariant 0 <= b <= chunks
      invariant sum == Bits.Matches(Bits.Unpack(bitBlocks), Bits.Unpack(weightBlocks), 256 * b)
    {
      var chunk := MaddPopcnt2Chunk(bitBlocks, weightBlocks, b);
      sum := sum + chunk;
      b := b + 1;
    }
  }

  /**
   * Both kernels read only the whole chunks of `length`: buffers that agree
   * on the bits below `ChunkBits(length)` get the same count, whatever their
   * trailing bits hold.
   */
  lemma TrailingBitsIgnored(a: seq<Bits.Byte>, w: seq<Bits.Byte>, a': seq<Bits.Byte>, w': seq<Bits.Byte>, length: Layout.Int32)
    requires ChunkBits(length) <= 8 * |a| && ChunkBits(length) <= 8 * |w|
    requires ChunkBits(length) <= 8 * |a'| && ChunkBits(length) <= 8 * |w'|
    requires forall i :: 0 <= i < ChunkBits(length) ==>
               Bits.Unpack(a)[i] == Bits.Unpack(a')[i] && Bits.Unpack(w)[i] == Bits.Unpack(w')[i]
    ensures Bits.Matches(Bits.Unpack(a), Bits.Unpack(w), ChunkBits(length))
         == Bits.Matches(Bits.Unpack(a'), Bits.Unpack(w'), ChunkBits(length))
  {
    Bits.MatchesFrame(Bits.Unpack(a), Bits.Unpack(w), Bits.Unpack(a'), Bits.Unpack(w'), ChunkBits(length));
  }
}
