# BitNet bit-packed layers in Dafny

This project models the arithmetic core of BitNet, a small engine for binarised neural networks. A ±1 value is stored as one bit, with 1 meaning +1 and 0 meaning −1. A dot product of two such vectors is computed as XNOR followed by popcount over 256-bit SIMD chunks.

The model covers:
- the size and index helpers of `bit_helper.h` and their copies in `net_common.h`;
- the two XNOR-popcount kernels, `MaddPopcnt` and `MaddPopcnt2`, with `Popcnt2562`;
- the bit-packed and int8 input layers;
- the training-mode passes of the bit-packed and int8 sign activations.

Modules follow the source files:

| module | file | source |
|---|---|---|
| `Layout` | layout.dfy | `bitnet::` helpers of src/util/bit_helper.h |
| `NetCommon` | net_common.dfy | global copies in src/net_common.h, `BATCH_SIZE`, element types |
| `Bits` | bits.dfy | bytes as eight bits, and the reference meaning of a packed buffer |
| `Popcount` | popcount.dfy | `MaddPopcnt` (bit_helper.h), `Popcnt2562` and `MaddPopcnt2` (bit_helper.cpp) |
| `Batch` | batch.dfy | row-major `[batch][feature]` buffers |
| `BitInput` | bit_input.dfy | src/layers/bit/bit_input.h |
| `IntInput` | int_input.dfy | src/layers/int/int_input.h |
| `BitSignActivation` | bit_sign_activation.dfy | src/layers/bit/bit_sign_activation.h |
| `IntSignActivation` | int_sign_activation.dfy | src/layers/int/int_sign_activation.h |

## Modelling choices

- **Bytes and bit order.**
  - A `uint8_t` is a sequence of eight booleans, where element s is the bit of weight 2^s.
  - `Bits.Unpack` reads a byte buffer in bit-index order through the MSB-first map: bit i is shift `7 - i % 8` of byte `i / 8`.
  - The kernels are specified against `Bits.Matches`, the number of positions where two unpacked buffers agree. That count looks at single bits, never at bytes, lanes or chunks.
- **C arithmetic.**
  - C++ `int` division and remainder truncate toward zero, and are written out as `Layout.TruncDiv` and `Layout.TruncMod`.
  - `AddPaddingToBitSize` computes through `double`. The conversion, the division by 256 and `ceil` are exact, so the model computes the exact multiple of 256. Converting that back to `int` is exact for every width up to `MAX_LAYER_DIM` = 0x7FFF_FF00 (see Left out for larger ones).
  - `BitToBlockCount` computes through `float`. `Layout.FloatOf` models the float conversion exactly: round to nearest, ties to even, 24-bit significand. `Layout.Round` does this one shifted-out bit at a time, remembering in a sticky bit whether a set bit was lost. `Layout.RoundNearest` states the result: in the binade [2^(24+k), 2^(25+k)) it is a multiple of the spacing 2^(k+1) within half a spacing of n, and on an exact tie a multiple of 2^(k+2), which determines it.
  - The layers derive `COMPRESS_OUT_BLOCKS` and `PADDED_OUT_BLOCKS` with `BitToBlockCount` as written, float rounding included (`NetCommon.CompressOutBlocks`, `NetCommon.PaddedOutBlocks`). Above 2^24 input bits `COMPRESS_OUT_BLOCKS` can therefore differ from the exact count (see Findings), but it never exceeds `PADDED_OUT_BLOCKS`, so every copy stays inside the row.
  - Every array bound of a layer is a constant `int` expression, which caps the widths a layer can have. `BitInput` needs `BATCH_SIZE * PADDED_OUT_BLOCKS` to be an `int`, so its width is at most `NetCommon.MAX_BIT_LAYER_DIM` = 0x3FFF_FF00. `BitSignActivation` also needs `BATCH_SIZE * COMPRESS_IN_DIM`, so its width is at most `MAX_SIGN_LAYER_DIM` = 2^27 − 1. The `Valid` predicates admit exactly these widths. Within them the float-rounded `COMPRESS_OUT_BLOCKS` is off by at most 4 bytes for the input layer and 1 byte for the sign activation. The helper alone, over all widths up to `MAX_LAYER_DIM` = 0x7FFF_FF00, can be off by 8.
- **Layers.**
  - A layer is an immutable datatype holding its buffers, and each pass is a function from one layer state to the next.
  - A layer does not hold its predecessor. The predecessor's batch output is an argument of `TrainForward` and is kept in the state, as the source keeps its address in `_inputBatchBuffer`. The gradient handed back is the `gradsToPrev` field.
- **Randomness.** The calls to `Random::GetReal01()` become a sequence of draws in [0, 1), consumed in loop order.
- **Undeclared constants and types.**
  - `SIMD_BYTE_WIDTH` is used in bit_helper.cpp but declared nowhere. It is taken as 32, the byte offset `MaddPopcnt` uses for the same chunk.
  - In the shipped network the predecessor of `IntSignActivation` is `IntDenseLayer` (src/train.h:9-10). Its `TrainForward` is a stub declared to return `const int *` (src/layers/int/int_dense.h:59-62) over an `int` batch buffer (src/layers/int/int_dense.h:37), while `IntSignActivation` reads its input through a `double*`. The model takes the values it reads as reals.

## Model

| member | source | states |
|---|---|---|
| `Layout.TruncDiv` | src/util/bit_helper.h:39 | `bitIndex / BYTE_BIT_WIDTH` rounds toward zero: for a non-negative dividend the quotient is the floor, for a negative one the ceiling |
| `Layout.TruncMod` | src/util/bit_helper.h:44 | `bitIndex % BYTE_BIT_WIDTH` is what the truncating division leaves over: a = d · TruncDiv(a, d) + m, with m in [0, d) for a ≥ 0 and in (−d, 0] for a < 0 |
| `Layout.AddPaddingToBitSize` | src/util/bit_helper.h:27-30 | the padded size is a multiple of 256 in [n, n + 256), is 0 for n = 0, and stays below 2^31 for every layer width up to `MAX_LAYER_DIM` |
| `Layout.BitToBlockCount` | src/util/bit_helper.h:32-35 | the byte count r is the least with 8r ≥ n: n ≤ 8r < n + 8 |
| `Layout.Round` | src/util/bit_helper.h:34 | rounding to a float leaves every n below 2^24 unchanged, and keeps larger n at or above 2^24 and within a factor of two |
| `Layout.FloatOf` | src/util/bit_helper.h:34 | `(float)bitSize` keeps the sign, and is exact for magnitudes below 2^24 |
| `Layout.RoundNearest` | src/util/bit_helper.h:34 | for n in [2^(24+k), 2^(25+k)) the float is a multiple of the spacing 2^(k+1), at most 2^k from n, and on an exact tie has an even significand (a multiple of 2^(k+2)): round to nearest, ties to even |
| `Layout.FloatWithin` | src/util/bit_helper.h:34 | below 2^(25+j) the float conversion moves a non-negative int by at most 2^j |
| `Layout.AsWrittenWithinEightBytes` | src/util/bit_helper.h:32-35 | for every argument up to `MAX_LAYER_DIM` the helper's float-rounded byte count differs from the exact one by at most 8, in either direction; this range is wider than any layer's |
| `Layout.BitToBlockCountFloatOffByEight` | src/util/bit_helper.h:32-35 | the helper's bound is reached both ways, at bit counts beyond any layer's width: 2^30 + 64 gets 8 bytes too few and 2^30 + 65 gets 7 bytes too many |
| `Layout.FloatExactBelowSignificand` | src/util/bit_helper.h:34 | every int of magnitude at most 2^24 converts to float exactly |
| `Layout.BitToBlockCountAsWritten` | src/util/bit_helper.h:32-35 | the float computation as written yields a non-negative count for a non-negative bit count |
| `Layout.BlockCountWithinPadding` | src/util/bit_helper.h:27-35 | for every width up to `MAX_LAYER_DIM`, eight times the float-rounded byte count is at most the padded width: rounding never passes the next multiple of 256 |
| `Layout.PaddedBlockCount` | src/util/bit_helper.h:27-35 | for a multiple of 256 the float-rounded byte count is exactly an eighth of it |
| `Layout.BitToBlockCountAgrees` | src/util/bit_helper.h:32-35 | for \|n\| ≤ 2^24 the float computation as written equals the exact ceiling of n / 8 |
| `Layout.FloatExactForPadded` | src/layers/bit/bit_input.h:35-36 | every multiple of 256 below 2^31 converts to float exactly, so `BitToBlockCount(PADDED_OUT_BITS)` is exact for every layer width |
| `Layout.BitToBlockCountFloatLosesAByte` | src/util/bit_helper.h:32-35 | for n = 2^24 + 1 the float computation yields 2^21 bytes, too few to hold n bits, while the exact count is 2^21 + 1 |
| `Layout.GetBlockIndex` | src/util/bit_helper.h:37-40 | for i ≥ 0 the byte index k satisfies 8k ≤ i < 8k + 8 |
| `Layout.GetBitIndexInBlock` | src/util/bit_helper.h:42-45 | for i ≥ 0 the shift s lies in [0, 7] and i = 8 · GetBlockIndex(i) + (7 − s) |
| `Layout.IndexMapInjective` | src/util/bit_helper.h:37-45 | two bit indices with the same (byte, shift) pair are equal |
| `Layout.IndexMapSurjective` | src/util/bit_helper.h:37-45 | every (byte k, shift s) pair is reached, by bit 8k + 7 − s |
| `NetCommon.AddPaddingToBitSize` | src/net_common.h:23-26 | the global copy returns what the `bitnet::` version returns, for every `int` |
| `NetCommon.BitToBlockCount` | src/net_common.h:28-31 | the global copy returns what the `bitnet::` version as written returns, float rounding included |
| `NetCommon.GetBlockIndex` | src/net_common.h:33-36 | the global copy agrees with the `bitnet::` version |
| `NetCommon.GetBitIndexInBlock` | src/net_common.h:38-41 | the global copy agrees with the `bitnet::` version, so every includer shares one MSB-first layout |
| `NetCommon.WidthsAgree` | src/net_common.h:7-9 | the widths declared in both headers coincide, and 8 divides 256 |
| `Bits.UnpackIndexMap` | src/util/bit_helper.h:37-45 | bit i of the unpacked buffer is the bit at shift `GetBitIndexInBlock(i)` of byte `GetBlockIndex(i)` |
| `Bits.OnesIsPopcountBytes` | src/util/bit_helper.cpp:6-16 | the set bits among the first 8m positions number the same as the byte-by-byte popcount of the first m bytes |
| `Bits.XnorSliceStep` | src/util/bit_helper.h:64-74 | the popcount of the bytewise XNOR of a c-byte window at byte m adds exactly the matches of bits 8m .. 8(m + c) − 1 |
| `Bits.MatchesSymmetric` | src/util/bit_helper.h:58-77 | the match count is symmetric in its two buffers |
| `Bits.MatchesAllIff` | src/util/bit_helper.h:67-74 | all n positions match if and only if the buffers agree on every position below n |
| `Bits.MatchesNoneIff` | src/util/bit_helper.h:67-74 | no position matches if and only if the buffers differ on every position below n |
| `Bits.DotFromMatches` | src/util/bit_helper.h:48-58 | reading 1 as +1 and 0 as −1, the ±1 dot product over n bits is 2 · matches − n |
| `Bits.PaddingNeutral` | src/util/bit_helper.h:51 | positions where both operands are clear add one match each |
| `Bits.PaddedDot` | src/util/bit_helper.h:48-58 | with both buffers clear beyond bit n, the dot product over n bits is recovered from the match count over the padded width |
| `Popcount.ChunkBits` | src/util/bit_helper.h:60 | the bits visited are a multiple of 256 in (length − 256, length] for length ≥ 0, and none for a negative length |
| `Popcount.BlockShift` | src/util/bit_helper.h:64 | chunk b starts at byte 32b |
| `Popcount.Popcnt2562` | src/util/bit_helper.cpp:6-16 | the sum over the four 64-bit lanes is the number of set bits of the 256-bit value, in [0, 256] |
| `Popcount.MaddPopcntChunk` | src/util/bit_helper.h:64-74 | one chunk iteration adds the matches of bits 256b .. 256b + 255 |
| `Popcount.MaddPopcnt` | src/util/bit_helper.h:58-77 | the result is the number of agreeing bit positions over the whole 256-bit chunks of `length`, in [0, ChunkBits(length)] |
| `Popcount.TrailingBitsIgnored` | src/util/bit_helper.h:60-62 | bits beyond the last whole chunk of `length` do not affect the result: buffers that agree on the chunks give the same count |
| `Popcount.MaddPopcnt2Chunk` | src/util/bit_helper.cpp:24-27 | one chunk, read at byte offset `b * SIMD_BYTE_WIDTH` and counted by `Popcnt2562`, adds the matches of bits 256b .. 256b + 255 |
| `Popcount.MaddPopcnt2` | src/util/bit_helper.cpp:18-30 | the result is the same match count over the whole 256-bit chunks of `length` that `MaddPopcnt` returns, in [0, ChunkBits(length)] |
| `NetCommon.CompressOutBlocks` | src/layers/bit/bit_input.h:34 | `COMPRESS_OUT_BLOCKS`, computed through float as written, never holds more bits than the padded row `PADDED_OUT_BITS` |
| `NetCommon.BatchBufferFits` | src/layers/bit/bit_input.h:41 | the batch buffer bound `BATCH_SIZE * PADDED_OUT_BLOCKS` is an `int` exactly for widths up to 0x3FFF_FF00 |
| `NetCommon.CompressOutBlocksWithinFourBytes` | src/layers/bit/bit_input.h:34 | for every width a bit-packed layer can have, the float-rounded `COMPRESS_OUT_BLOCKS` is within 4 bytes of the exact count |
| `NetCommon.PaddedOutBits` | src/layers/bit/bit_input.h:35 | `PADDED_OUT_BITS` is a multiple of 256 in [n, n + 256) |
| `NetCommon.PaddedOutBlocks` | src/layers/bit/bit_input.h:36 | `PADDED_OUT_BLOCKS`, computed through float, is exactly an eighth of `PADDED_OUT_BITS` |
| `NetCommon.PaddedSizes` | src/layers/bit/bit_input.h:34-36 | `PADDED_OUT_BITS` is a multiple of 256 in [n, n + 256), is 8 · `PADDED_OUT_BLOCKS`, and `PADDED_OUT_BLOCKS` is a multiple of 32 and at least the float-rounded `COMPRESS_OUT_BLOCKS` |
| `NetCommon.CompressOutBlocksExact` | src/layers/bit/bit_input.h:34 | for widths up to 2^24, the float-rounded `COMPRESS_OUT_BLOCKS` is the exact number of bytes holding the width's bits |
| `BitInput.TwoInputSizes` | src/layers/bit/bit_input.h:32-36 | for two input bits the sizes are 256 bits, 32 bytes and 1 data byte |
| `BitInput.Init` | src/layers/bit/bit_input.h:44-48 | every byte of both buffers is zero afterwards, so the padding is zero |
| `BitInput.Forward` | src/layers/bit/bit_input.h:53-61 | the first `COMPRESS_OUT_BLOCKS` bytes (the float-rounded count) are the input's, the rest of the row and the batch buffer are unchanged |
| `BitInput.TrainForward` | src/layers/bit/bit_input.h:68-80 | the single-sample buffer is unchanged and the buffers keep their sizes |
| `BitInput.TrainForwardCell` | src/layers/bit/bit_input.h:71-78 | byte i of row b is the input's byte b · P + i for i < `COMPRESS_OUT_BLOCKS` (the float-rounded count), with P = `PADDED_OUT_BLOCKS` the stride of both input and output, and is unchanged otherwise |
| `BitInput.ResetWeight` | src/layers/bit/bit_input.h:63-65 | nothing changes |
| `BitInput.TrainBackward` | src/layers/bit/bit_input.h:82-85 | nothing changes |
| `BitInput.Save` | src/layers/bit/bit_input.h:50 | nothing is written |
| `BitInput.Load` | src/layers/bit/bit_input.h:51 | nothing is read and nothing changes |
| `BitInput.TrainForwardKeepsPadding` | src/layers/bit/bit_input.h:71-78 | a batch buffer whose padding bytes are zero still has zero padding after `TrainForward`, because the copy stops at `COMPRESS_OUT_BLOCKS` |
| `BitInput.PaddingStaysZero` | src/layers/bit/bit_input.h:44-80 | after `Init`, the padding bytes of both buffers stay zero through any sequence of `Forward` and `TrainForward` calls |
| `BitInput.ForwardIdempotent` | src/layers/bit/bit_input.h:53-61 | repeating `Forward` with the same input changes nothing further |
| `BitInput.TrainForwardIdempotent` | src/layers/bit/bit_input.h:68-80 | repeating `TrainForward` with the same input changes nothing further |
| `IntInput.Forward` | src/layers/int/int_input.h:29-37 | value i of the single-sample buffer is input value i, and the batch buffer is untouched |
| `IntInput.TrainForward` | src/layers/int/int_input.h:44-56 | the batch buffer holds the input's first `BATCH_SIZE * COMPRESS_OUT_DIM` values, and the single-sample buffer is untouched |
| `IntInput.TrainForwardCell` | src/layers/int/int_input.h:47-54 | value i of row b is input value b · D + i, with D = `COMPRESS_OUT_DIM` |
| `IntInput.TrainForwardLoop` | src/layers/int/int_input.h:47-54 | the nested copy loop produces exactly the batch buffer of `TrainForward` |
| `IntInput.ResetWeight` | src/layers/int/int_input.h:39-41 | nothing changes |
| `IntInput.TrainBackward` | src/layers/int/int_input.h:58-61 | nothing changes |
| `IntInput.ForwardIdempotent` | src/layers/int/int_input.h:29-37 | repeating `Forward` with the same input changes nothing further |
| `IntInput.TrainForwardIdempotent` | src/layers/int/int_input.h:44-56 | repeating `TrainForward` with the same input changes nothing further |
| `IntInput.ForwardForgetsState` | src/layers/int/int_input.h:32-35 | the single-sample output depends only on the input, not on the previous buffer |
| `IntInput.ForwardsCommute` | src/layers/int/int_input.h:29-56 | `Forward` and `TrainForward` write disjoint buffers, so their order does not matter |
| `BitSignActivation.HardTanh` | src/layers/bit/bit_sign_activation.h:85 | the clipped value lies in {−1, 0, 1}, equals x exactly when x is in [−1, 1], and is ±1 beyond |
| `BitSignActivation.HardTanhNearest` | src/layers/bit/bit_sign_activation.h:85 | the clipped value is a point of [−1, 1] nearest to x |
| `BitSignActivation.ProbPositive` | src/layers/bit/bit_sign_activation.h:86 | the probability lies in [0, 1]; it is 0 exactly at −1 and 1 exactly at +1 |
| `BitSignActivation.SampleBit` | src/layers/bit/bit_sign_activation.h:84-88 | with a draw in [0, 1), x ≥ 1 gives bit 1, x ≤ −1 gives bit 0, and x = 0 gives bit 1 exactly when the draw is below 0.5 |
| `BitSignActivation.SampleBitMonotone` | src/layers/bit/bit_sign_activation.h:84-88 | for a fixed draw, a larger input never turns bit 1 into bit 0 |
| `BitSignActivation.Splice` | src/layers/bit/bit_sign_activation.h:93-95 | the masked update sets bit s to the sampled bit and leaves the other seven bits of the byte alone |
| `BitSignActivation.SpliceAt` | src/layers/bit/bit_sign_activation.h:90-97 | writing at byte `GetBlockIndex(i)` and shift `GetBitIndexInBlock(i)` changes bit i of the row, read through the index map, and no other bit |
| `BitSignActivation.SpliceRow` | src/layers/bit/bit_sign_activation.h:81-98 | after the inner loop, bit i < n of the row is the sample of input i with draw i, and every later bit keeps its value |
| `BitSignActivation.TrainForward` | src/layers/bit/bit_sign_activation.h:73-101 | row b of the batch output is the spliced row b; the input is kept, and the single-sample buffer and the gradients are unchanged |
| `BitSignActivation.TrainForwardSamples` | src/layers/bit/bit_sign_activation.h:77-99 | bit i < `COMPRESS_IN_DIM` of output row b is the sample of input value b · `PADDED_IN_BLOCKS` + i with draw number b · `COMPRESS_IN_DIM` + i |
| `BitSignActivation.TrainForwardFrame` | src/layers/bit/bit_sign_activation.h:77-99 | the bits of each output row at positions ≥ `COMPRESS_IN_DIM` keep their previous values |
| `BitSignActivation.ArrayBoundsFit` | src/layers/bit/bit_sign_activation.h:47-50 | the widths the layer admits are exactly those whose array bounds `BATCH_SIZE * COMPRESS_IN_DIM` and `BATCH_SIZE * PADDED_OUT_BLOCKS` are `int`s |
| `BitSignActivation.CompressOutBlocksWithinOneByte` | src/layers/bit/bit_sign_activation.h:36 | for every width the layer can have, the float-rounded `COMPRESS_OUT_BLOCKS` is within one byte of the exact count |
| `BitSignActivation.Initial` | src/layers/bit/bit_sign_activation.h:47-50 | the `= {0}` initialisers leave every bit of the single-sample and batch output buffers clear (so the padding bits too) and every gradient 0.0, in buffers of the declared sizes |
| `BitSignActivation.TrainForwardKeepsPadding` | src/layers/bit/bit_sign_activation.h:77-99 | clear padding bits stay clear through `TrainForward` |
| `BitSignActivation.Gate` | src/layers/bit/bit_sign_activation.h:113-121 | the gradient passes where hardtanh is the identity and becomes 0 where it clips, so it is either g or 0 and never larger in magnitude than g |
| `BitSignActivation.GateRow` | src/layers/bit/bit_sign_activation.h:109-122 | gradient i of a row is incoming gradient i gated by input value i |
| `BitSignActivation.TrainBackward` | src/layers/bit/bit_sign_activation.h:103-125 | only the gradients handed back change |
| `BitSignActivation.TrainBackwardCell` | src/layers/bit/bit_sign_activation.h:105-123 | `_gradsToPrev[b * COMPRESS_OUT_DIM + i]` is incoming gradient b · `COMPRESS_OUT_DIM` + i gated by kept input value b · `PADDED_IN_BLOCKS` + i |
| `BitSignActivation.TrainBackwardBounded` | src/layers/bit/bit_sign_activation.h:114-121 | no gradient handed back exceeds in magnitude the incoming gradient at its place |
| `BitSignActivation.ResetWeight` | src/layers/bit/bit_sign_activation.h:65-68 | the layer's own state does not change |
| `IntSignActivation.HardTanh` | src/layers/int/int_sign_activation.h:57 | the clipped value lies in [−1, 1], equals x exactly when x is in [−1, 1], and is ±1 beyond |
| `IntSignActivation.HardTanhMonotone` | src/layers/int/int_sign_activation.h:57 | hardtanh never decreases |
| `IntSignActivation.ProbPositive` | src/layers/int/int_sign_activation.h:58 | the probability lies in [0, 1]; it is 0 exactly at −1 and 1 exactly at +1 |
| `IntSignActivation.SampleSign` | src/layers/int/int_sign_activation.h:57-61 | the output is +1 or −1; with a draw in [0, 1), x ≥ 1 gives +1 and x ≤ −1 gives −1 |
| `IntSignActivation.SampleSignMonotone` | src/layers/int/int_sign_activation.h:57-59 | for a fixed draw, if x₁ ≤ x₂ and x₁ gives +1, then x₂ gives +1 |
| `IntSignActivation.SampleSignAgreesWithBit` | src/layers/int/int_sign_activation.h:57-61 | on an int8 input with the same draw, the int layer emits +1 exactly when the bit-packed layer emits bit 1 |
| `IntSignActivation.Gate` | src/layers/int/int_sign_activation.h:76-84 | the gradient passes where hardtanh is the identity and becomes 0 where it clips, and is never larger in magnitude than g |
| `IntSignActivation.TrainForward` | src/layers/int/int_sign_activation.h:47-65 | every batch output is +1 or −1, and is the sign sampled for the input value at its place with the draw of the same number; the input is kept |
| `IntSignActivation.TrainForwardLoop` | src/layers/int/int_sign_activation.h:51-63 | the nested loops use exactly `BATCH_SIZE * COMPRESS_OUT_DIM` draws, in order, and produce the batch output of `TrainForward` |
| `IntSignActivation.TrainBackward` | src/layers/int/int_sign_activation.h:67-88 | with row-indexed gradients, gradient j handed back is incoming gradient j gated by input value j, and nothing else changes |
| `IntSignActivation.TrainBackwardBounded` | src/layers/int/int_sign_activation.h:76-84 | no gradient handed back exceeds in magnitude the incoming gradient at its place |
| `IntSignActivation.RowGrads` | src/layers/int/int_sign_activation.h:71-85 | value i of row b's gated gradient is incoming gradient b · D + i gated by input value b · D + i |
| `IntSignActivation.TrainBackwardAsWritten` | src/layers/int/int_sign_activation.h:69-86 | the loops as written leave in `_gradsToPrev[i]` the gated gradient of row `BATCH_SIZE − 1` only |
| `IntSignActivation.TrainBackwardLosesRows` | src/layers/int/int_sign_activation.h:79 | an input where row 0 passes a gradient of 1 that the source hands back as 0 |
| `IntSignActivation.Forward` | src/layers/int/int_sign_activation.h:33-37 | the unimplemented `Forward` changes nothing and returns `_outputBuffer` |
| `IntSignActivation.ResetWeight` | src/layers/int/int_sign_activation.h:39-42 | the layer's own state does not change |

## Left out

- SIMD intrinsics and 32-byte alignment are not modelled. The kernels are modelled by what they count. `_mm256_xor_si256`, `~` and the lane popcounts become bytewise operations on `Bits.Byte`.
- The static scratch buffer `TempMaddBuffer` is not modelled. It is shared between calls, and its non-reentrancy is a concurrency matter.
- The shipped kernels loop over chunks inline. `Popcount.MaddPopcntChunk` and `Popcount.MaddPopcnt2Chunk` are that loop body split out as separate methods.
- The Mersenne Twister behind `Random::GetReal01()` is not modelled. Its draws are a parameter, and the properties hold for every draw sequence.
- Floating-point rounding in `IntSignActivation` is not modelled; the `double` arithmetic is computed exactly over reals. `htanh`, `(htanh + 1.0) / 2.0` and the comparison with the draw are exact for integer-valued inputs, and the predecessor `IntDenseLayer` produces `int` values.
- `BitSignActivation::Forward` is not modelled. It calls `CollectSignBit`, and `PADDED_IN_BLOCKS` comes from `AddPaddingToBytes`. Neither is part of this model, so the predecessor's row stride is the parameter `inStride`.
- Calls into the predecessor (`_prevLayer.TrainForward`, `TrainBackward`, `ResetWeight`) are not modelled. The predecessor's output is an argument, and the gradient handed back is a field.
- The stream I/O of `BitInputLayer::Save` and `Load` is not modelled. The model shows that nothing is written or read.
- The dense layers are not modelled, because they are stubs without logic. The training driver, `main`, the data generator and the tests are not part of this model.
- `Layout.Round` and `Layout.FloatOf`: their own contracts state only exactness below 2^24 and coarse bounds, to keep every size computation that unfolds them cheap; round to nearest with ties to even is stated by `Layout.RoundNearest` instead.
- `Layout.AddPaddingToBitSize` (and its copy `NetCommon.AddPaddingToBitSize`): for n above 0x7FFF_FF00 the padded size 2^31 does not fit in an `int`, and converting it back from `double` is undefined behaviour in C++. The model returns the mathematical 2^31 there; the layers only use widths up to 0x3FFF_FF00, where the result fits.
- `IntInput` and `IntSignActivation` do not bound their width by the `int` array bounds `BATCH_SIZE * COMPRESS_OUT_DIM`, because nothing in them computes a size through `float` or `double`; a width beyond 2^27 − 1 is ill-formed C++ but harmless to the model.
- Overflow of the kernels' `int` sum is not modelled, because it cannot happen. The sum is at most `ChunkBits(length)`, which is at most `length`, an `int`.

## Findings

| source | as written | input that shows it | evidently intended | confidence | as-written member | corrected member |
|---|---|---|---|---|---|---|
| src/util/bit_helper.h:32-35 | `std::ceil(bitSize / (float)BYTE_BIT_WIDTH)` rounds `bitSize` to a 24-bit float significand before dividing (the copy at src/net_common.h:28-31 does the same) | bitSize = 16777217 gives 2097152 bytes, which hold only 16777216 bits; for the widths a bit input layer can have (up to 0x3FFF_FF00, fixed by its `int` array bounds) the count is off by at most 4 bytes either way, and the helper alone, at bit counts beyond any layer, by up to 8 (2^30 + 64 bits get 8 bytes too few, 2^30 + 65 bits 7 too many) | the exact ceiling (bitSize + 7) / 8 = 2097153 | not executed; certain for the arithmetic, but the constructed networks are far below 2^24 bits | `Layout.BitToBlockCountFloatLosesAByte` | `Layout.BitToBlockCount` |
| src/layers/int/int_sign_activation.h:79 | `_gradsToPrev[i] = g`, with `_gradsToPrev` sized `COMPRESS_IN_DIM`, is overwritten for every batch row, so only row `BATCH_SIZE − 1` reaches the predecessor | one input (`COMPRESS_OUT_DIM` = 1), row 0 input 0.0 and rows 1–15 input 2.0, all incoming gradients 1.0: the source hands back 0.0, and row 0's gradient 1.0 is lost | one gradient per row at `b * COMPRESS_OUT_DIM + i`, as the bit-packed layer does at src/layers/bit/bit_sign_activation.h:116 | not executed; medium, because the predecessor in the shipped network, `IntDenseLayer`, has a `TrainBackward` that is an empty stub (src/layers/int/int_dense.h:64-66), so the lost gradients are never used | `IntSignActivation.TrainBackwardAsWritten` | `IntSignActivation.TrainBackward` |
