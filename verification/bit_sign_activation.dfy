/**
 * The bit-packed sign activation `BitSignActivation<PreviousLayer_t>`
 * (src/layers/bit/bit_sign_activation.h), in training mode.
 *
 * `TrainForward` reads the predecessor's int8 batch output, row b at offset
 * `b * PADDED_IN_BLOCKS`, and turns each value x into one bit: +1 with
 * probability (hardtanh(x) + 1) / 2. The bit is spliced into the packed
 * output row at the place the index helpers give, leaving the other bits of
 * the byte alone. `TrainBackward` gates the incoming gradient with the
 * derivative of hardtanh.
 *
 * The predecessor layer is not held: its batch output is an argument of
 * `TrainForward` and is kept in the state (the source keeps its address),
 * and the gradient handed back to it is the `gradsToPrev` field. The calls
 * to `Random::GetReal01()` become a sequence of draws; the layer consumes
 * them in loop order, so draw number b * COMPRESS_IN_DIM + i decides bit i
 * of row b. The output buffers have the sizes the bit input layer uses for
 * the same bit count.
 */
module BitSignActivation {
  import Layout
  import Bits
  import Batch
  import opened NetCommon

  // ---------------------------------------------------------------------
  // One value

  /** `std::max(-1, std::min(1, x))` on `int8_t`: hardtanh, which clips to [-1, 1]. */
  function HardTanh(x: Int8): (h: int)
    ensures -1 <= h <= 1
    ensures h == x <==> -1 <= x <= 1
    ensures x > 1 ==> h == 1
    ensures x < -1 ==> h == -1
  {
    if x < -1 then -1 else if x > 1 then 1 else x
  }

  /** Among the values of [-1, 1], `HardTanh(x)` is a nearest one to x. */
  lemma HardTanhNearest(x: Int8, y: int)
    requires -1 <= y <= 1
    ensures Abs(x - HardTanh(x)) <= Abs(x - y)
  {
  }

  /** `(htanh + 1) / 2.0`: the probability of emitting +1. */
  function ProbPositive(h: int): (p: real)
    requires -1 <= h <= 1
    ensures 0.0 <= p <= 1.0
    ensures p == 0.0 <==> h == -1
    ensures p == 1.0 <==> h == 1
  {
    (h + 1) as real / 2.0
  }

  /**
   * `rand < probPositive`: the bit drawn for x with the uniform draw
   * `rand` in [0, 1). Saturated inputs are deterministic; x = 0 is a fair coin.
   */
  function SampleBit(x: Int8, rand: real): (bit: bool)
    ensures 0.0 <= rand < 1.0 && x >= 1 ==> bit
    ensures 0.0 <= rand && x <= -1 ==> !bit
    ensures x == 0 ==> (bit <==> rand < 0.5)
  {
    rand < ProbPositive(HardTanh(x))
  }

  /** For a fixed draw, a larger input never turns a +1 into a -1. */
  lemma SampleBitMonotone(x1: Int8, x2: Int8, rand: real)
    requires x1 <= x2 && SampleBit(x1, rand)
    ensures SampleBit(x2, rand)
  {
  }

  /**
   * `(block & ~(1 << s)) | (isPositive << s)`: bit s becomes `bit`, the other
   * seven bits keep their values. The C shifts act on `int`, and only the
   * low eight bits reach the `uint8_t` result.
   */
  function Splice(block: Bits.Byte, s: int, bit: bool): (r: Bits.Byte)
    requires 0 <= s < 8
    ensures r[s] == bit
    ensures forall t :: 0 <= t < 8 && t != s ==> r[t] == block[t]
  {
    var mask := Bits.Not(Bits.BitAtShift(true, s));
    var newBit := Bits.BitAtShift(bit, s);
    Bits.Or(Bits.And(block, mask), newBit)
  }

  /**
   * Write `bit` as bit i of a packed row: byte `GetBlockIndex(i)`, shift
   * `GetBitIndexInBlock(i)`. Read back through the index map, only bit i changes.
   */
  function SpliceAt(row: seq<Bits.Byte>, i: nat, bit: bool): (r: seq<Bits.Byte>)
    requires i < 8 * |row|
    ensures |r| == |row|
    ensures Bits.Unpack(r)[i] == bit
    ensures forall j :: 0 <= j < 8 * |row| && j != i ==> Bits.Unpack(r)[j] == Bits.Unpack(row)[j]
  {
    Bits.UnpackIndexMap(row, i);
    var blockIdx := Layout.GetBlockIndex(i);
    var bitShift := Layout.GetBitIndexInBlock(i);
    var r := row[blockIdx := Splice(row[blockIdx], bitShift, bit)];
    Bits.UnpackIndexMap(r, i);
    SpliceAtFrame(row, i, r);
    r
  }

  lemma SpliceAtFrame(row: seq<Bits.Byte>, i: nat, r: seq<Bits.Byte>)
    requires i < 8 * |row| && |r| == |row|
    requires 0 <= Layout.GetBlockIndex(i) < |row| && 0 <= Layout.GetBitIndexInBlock(i) < 8
    requires forall k :: 0 <= k < |row| && k != Layout.GetBlockIndex(i) ==> r[k] == row[k]
    requires forall t :: 0 <= t < 8 && t != Layout.GetBitIndexInBlock(i) ==>
               r[Layout.GetBlockIndex(i)][t] == row[Layout.GetBlockIndex(i)][t]
    ensures forall j :: 0 <= j < 8 * |row| && j != i ==> Bits.Unpack(r)[j] == Bits.Unpack(row)[j]
  {
    forall j | 0 <= j < 8 * |row| && j != i
      ensures Bits.Unpack(r)[j] == Bits.Unpack(row)[j]
    {
      Bits.UnpackIndexMap(row, j);
      Bits.UnpackIndexMap(r, j);
      if Layout.GetBlockIndex(j) == Layout.GetBlockIndex(i) && Layout.GetBitIndexInBlock(j) == Layout.GetBitIndexInBlock(i) {
        Layout.IndexMapInjective(i, j);
        assert false;
      }
    }
  }

  /**
   * The inner loop of `TrainForward` over the first n inputs of one row:
   * bit i of the packed row becomes the sample of input i with draw i, for
   * every i < n, and every later bit keeps its value.
   */
  function SpliceRow(row: seq<Bits.Byte>, xs: seq<Int8>, draws: seq<real>, n: nat): (r: seq<Bits.Byte>)
    requires n <= |xs| && n <= |draws| && n <= 8 * |row|
    ensures |r| == |row|
    ensures forall i :: 0 <= i < n ==> Bits.Unpack(r)[i] == SampleBit(xs[i], draws[i])
    ensures forall j :: n <= j < 8 * |row| ==> Bits.Unpack(r)[j] == Bits.Unpack(row)[j]
  {
    if n == 0 then row
    else SpliceAt(SpliceRow(row, xs, draws, n - 1), n - 1, SampleBit(xs[n - 1], draws[n - 1]))
  }

  // ---------------------------------------------------------------------
  // The layer

  /**
   * Widest layer whose array bounds are all `int`s: `_gradsToPrev` has
   * `BATCH_SIZE * COMPRESS_IN_DIM` elements, which caps the width below 2^27.
   */
  const MAX_SIGN_LAYER_DIM: int := 0x7FF_FFFF

  datatype BitSignLayer = BitSignLayer(
    dim: nat,
    inStride: nat,
    outputBuffer: seq<Bits.Byte>,
    outputBatchBuffer: seq<Bits.Byte>,
    gradsToPrev: seq<real>,
    inputBatch: seq<Int8>)
  {
    /**
     * `dim` is `COMPRESS_IN_DIM` = `COMPRESS_OUT_DIM`, `inStride` the
     * predecessor's row stride `PADDED_IN_BLOCKS`; the buffers have the
     * sizes the class declares.
     */
    predicate Valid()
    {
      && dim <= MAX_SIGN_LAYER_DIM
      && |outputBuffer| == PaddedOutBlocks(dim)
      && |outputBatchBuffer| == BATCH_SIZE * PaddedOutBlocks(dim)
      && |gradsToPrev| == BATCH_SIZE * dim
    }
  }

  /** The first `dim` values of row b of the predecessor's output, which has row stride `inStride`. */
  function InputRow(input: seq<Int8>, inStride: nat, dim: nat, b: nat): (r: seq<Int8>)
    requires RowsReadable(dim, inStride, |input|) && b < BATCH_SIZE
    ensures |r| == dim
    ensures forall i :: 0 <= i < dim ==> b * inStride + i < |input| && r[i] == input[b * inStride + i]
  {
    if dim == 0 then [] else
    Batch.MulMonotone(b, BATCH_SIZE - 1, inStride);
    input[b * inStride..b * inStride + dim]
  }

  /**
   * Row b of an unpadded batch of rows of width `dim`: the draws of row b
   * (numbers b * dim .. b * dim + dim - 1), or the incoming gradients of row b.
   */
  function DenseRow<T>(s: seq<T>, dim: nat, b: nat): (r: seq<T>)
    requires BATCH_SIZE * dim <= |s| && b < BATCH_SIZE
    ensures |r| == dim
    ensures forall i :: 0 <= i < dim ==> b * dim + i < |s| && r[i] == s[b * dim + i]
  {
    Batch.MulMonotone(b + 1, BATCH_SIZE, dim);
    s[b * dim..b * dim + dim]
  }

  /** Row b of the batch output after `TrainForward`. */
  function NewRow(l: BitSignLayer, input: seq<Int8>, draws: seq<real>, b: nat): (r: seq<Bits.Byte>)
    requires l.Valid() && RowsReadable(l.dim, l.inStride, |input|)
    requires BATCH_SIZE * l.dim <= |draws| && b < BATCH_SIZE
    ensures |r| == PaddedOutBlocks(l.dim)
  {
    var p := PaddedOutBlocks(l.dim);
    PaddedSizes(l.dim);
    SpliceRow(Batch.Row(l.outputBatchBuffer, BATCH_SIZE, p, b), InputRow(input, l.inStride, l.dim, b), DenseRow(draws, l.dim, b), l.dim)
  }

  /** Whether the predecessor's output and the draws cover what `TrainForward` reads. */
  predicate TrainForwardOk(l: BitSignLayer, input: seq<Int8>, draws: seq<real>)
  {
    && RowsReadable(l.dim, l.inStride, |input|)
    && BATCH_SIZE * l.dim <= |draws|
  }

  /**
   * `TrainForward`: row b of the batch output becomes `NewRow(b)`, the row
   * with its first `COMPRESS_IN_DIM` bits sampled from input row b. The
   * input is kept for `TrainBackward`.
   */
  function TrainForward(l: BitSignLayer, input: seq<Int8>, draws: seq<real>): (r: BitSignLayer)
    requires l.Valid() && TrainForwardOk(l, input, draws)
    ensures r.Valid() && r.dim == l.dim && r.inStride == l.inStride
    ensures r.inputBatch == input
    ensures r.outputBuffer == l.outputBuffer && r.gradsToPrev == l.gradsToPrev
    ensures forall b :: 0 <= b < BATCH_SIZE ==>
              Batch.Row(r.outputBatchBuffer, BATCH_SIZE, PaddedOutBlocks(l.dim), b) == NewRow(l, input, draws, b)
  {
    var p := PaddedOutBlocks(l.dim);
    var rows := seq(BATCH_SIZE, b requires 0 <= b < BATCH_SIZE => NewRow(l, input, draws, b));
    Batch.FlatRows(rows, p);
    l.(outputBatchBuffer := Batch.Flat(rows, p), inputBatch := input)
  }

  /** Bit-level contents of output row b after `TrainForward`. */
  function OutBits(l: BitSignLayer, input: seq<Int8>, draws: seq<real>, b: nat): (v: seq<bool>)
    requires l.Valid() && TrainForwardOk(l, input, draws) && b < BATCH_SIZE
    ensures |v| == 8 * PaddedOutBlocks(l.dim)
  {
    Bits.Unpack(Batch.Row(TrainForward(l, input, draws).outputBatchBuffer, BATCH_SIZE, PaddedOutBlocks(l.dim), b))
  }

  /**
   * Bit view of `TrainForward`: bit i < `COMPRESS_IN_DIM` of output row b
   * is the sample of value i of input row b with draw i of row b, that is
   * draw number b * COMPRESS_IN_DIM + i (`DenseRow`).
   */
  lemma TrainForwardSamples(l: BitSignLayer, input: seq<Int8>, draws: seq<real>, b: nat, i: nat)
    requires l.Valid() && TrainForwardOk(l, input, draws) && b < BATCH_SIZE && i < l.dim
    ensures OutBits(l, input, draws, b)[i]
         == SampleBit(InputRow(input, l.inStride, l.dim, b)[i], DenseRow(draws, l.dim, b)[i])
  {
    var p := PaddedOutBlocks(l.dim);
    PaddedSizes(l.dim);
    assert Batch.Row(TrainForward(l, input, draws).outputBatchBuffer, BATCH_SIZE, p, b) == NewRow(l, input, draws, b);
  }

  /** Bits of output row b past `COMPRESS_IN_DIM` keep their values through `TrainForward`. */
  lemma TrainForwardFrame(l: BitSignLayer, input: seq<Int8>, draws: seq<real>, b: nat, j: nat)
    requires l.Valid() && TrainForwardOk(l, input, draws) && b < BATCH_SIZE
    requires l.dim <= j < 8 * PaddedOutBlocks(l.dim)
    ensures OutBits(l, input, draws, b)[j]
         == Bits.Unpack(Batch.Row(l.outputBatchBuffer, BATCH_SIZE, PaddedOutBlocks(l.dim), b))[j]
  {
    var p := PaddedOutBlocks(l.dim);
    PaddedSizes(l.dim);
    assert Batch.Row(TrainForward(l, input, draws).outputBatchBuffer, BATCH_SIZE, p, b) == NewRow(l, input, draws, b);
  }

  /** Every bit at a position >= `COMPRESS_OUT_BITS` of every row of a batch buffer is clear. */
  predicate PaddingZero(buf: seq<Bits.Byte>, dim: nat)
    requires dim <= Layout.MAX_LAYER_DIM && |buf| == BATCH_SIZE * PaddedOutBlocks(dim)
  {
    forall b, j :: 0 <= b < BATCH_SIZE && dim <= j < 8 * PaddedOutBlocks(dim) ==>
      !Bits.Unpack(Batch.Row(buf, BATCH_SIZE, PaddedOutBlocks(dim), b))[j]
  }

  /**
   * The widths `Valid` admits are exactly those whose three array bounds,
   * `BATCH_SIZE * COMPRESS_IN_DIM`, `PADDED_OUT_BLOCKS` and
   * `BATCH_SIZE * PADDED_OUT_BLOCKS`, are `int`s.
   */
  lemma ArrayBoundsFit(dim: nat)
    requires dim <= Layout.MAX_LAYER_DIM
    ensures dim <= MAX_SIGN_LAYER_DIM
        <==> BATCH_SIZE * dim <= 0x7FFF_FFFF && BATCH_SIZE * PaddedOutBlocks(dim) <= 0x7FFF_FFFF
  {
    BatchBufferFits(dim);
  }

  /**
   * For every width the layer can have, the float-rounded
   * `COMPRESS_OUT_BLOCKS` is within one byte of the exact count: below 2^27
   * the float moves the width by at most 4 bits.
   */
  lemma CompressOutBlocksWithinOneByte(dim: nat)
    requires dim <= MAX_SIGN_LAYER_DIM
    ensures -1 <= CompressOutBlocks(dim) - Layout.BitToBlockCount(dim) <= 1
  {
    Layout.Pow2Table();
    Layout.FloatWithin(dim, 2);
  }

  /** The layer as constructed: every buffer zero (`= {0}`), no input seen yet. */
  function Initial(dim: nat, inStride: nat): (l: BitSignLayer)
    requires dim <= MAX_SIGN_LAYER_DIM
    ensures l.Valid() && l.dim == dim && l.inStride == inStride
    ensures forall i :: 0 <= i < 8 * |l.outputBuffer| ==> !Bits.Unpack(l.outputBuffer)[i]
    ensures forall i :: 0 <= i < 8 * |l.outputBatchBuffer| ==> !Bits.Unpack(l.outputBatchBuffer)[i]
    ensures PaddingZero(l.outputBatchBuffer, dim)
    ensures forall j :: 0 <= j < |l.gradsToPrev| ==> l.gradsToPrev[j] == 0.0
  {
    var p := PaddedOutBlocks(dim);
    var l := BitSignLayer(dim, inStride, Zeros(p), Zeros(BATCH_SIZE * p),
                          seq(BATCH_SIZE * dim, _ => 0.0), []);
    Bits.UnpackZeros(l.outputBuffer);
    Bits.UnpackZeros(l.outputBatchBuffer);
    ZeroRowsArePadded(l.outputBatchBuffer, dim);
    l
  }

  lemma ZeroRowsArePadded(buf: seq<Bits.Byte>, dim: nat)
    requires dim <= Layout.MAX_LAYER_DIM && |buf| == BATCH_SIZE * PaddedOutBlocks(dim)
    requires forall k :: 0 <= k < |buf| ==> buf[k] == Bits.BYTE_ZERO
    ensures PaddingZero(buf, dim)
  {
    var p := PaddedOutBlocks(dim);
    forall b | 0 <= b < BATCH_SIZE
      ensures forall j :: dim <= j < 8 * p ==> !Bits.Unpack(Batch.Row(buf, BATCH_SIZE, p, b))[j]
    {
      Bits.UnpackZeros(Batch.Row(buf, BATCH_SIZE, p, b));
    }
  }

  /** `TrainForward` writes only the first `COMPRESS_IN_DIM` bits of each row, so clear padding stays clear. */
  lemma TrainForwardKeepsPadding(l: BitSignLayer, input: seq<Int8>, draws: seq<real>)
    requires l.Valid() && TrainForwardOk(l, input, draws)
    requires PaddingZero(l.outputBatchBuffer, l.dim)
    ensures PaddingZero(TrainForward(l, input, draws).outputBatchBuffer, l.dim)
  {
    var p := PaddedOutBlocks(l.dim);
    forall b, j | 0 <= b < BATCH_SIZE && l.dim <= j < 8 * p
      ensures !OutBits(l, input, draws, b)[j]
    {
      TrainForwardFrame(l, input, draws, b, j);
    }
  }

  /**
   * The derivative of hardtanh applied to the gradient g
   * (`std::abs(x) <= 1 ? g : 0`): g passes where hardtanh is the identity
   * and is cut to 0 where it clips.
   */
  function Gate(x: Int8, g: real): (r: real)
    ensures HardTanh(x) == x ==> r == g
    ensures HardTanh(x) != x ==> r == 0.0
    ensures AbsReal(r) <= AbsReal(g)
  {
    if Abs(x) <= 1 then g else 0.0
  }

  /** The gradient of one row: input i gates gradient i. */
  function GateRow(xs: seq<Int8>, gs: seq<real>): (r: seq<real>)
    requires |xs| == |gs|
    ensures |r| == |xs|
    ensures forall i :: 0 <= i < |xs| ==> r[i] == Gate(xs[i], gs[i])
  {
    seq(|xs|, i requires 0 <= i < |xs| => Gate(xs[i], gs[i]))
  }

  /** Whether the kept input and the incoming gradient cover what `TrainBackward` reads. */
  predicate TrainBackwardOk(l: BitSignLayer, nextGrad: seq<real>)
  {
    && RowsReadable(l.dim, l.inStride, |l.inputBatch|)
    && BATCH_SIZE * l.dim <= |nextGrad|
  }

  /** The rows of the gradient handed back: incoming row b gated by kept input row b. */
  function GradRows(l: BitSignLayer, nextGrad: seq<real>): (rows: seq<seq<real>>)
    requires l.Valid() && TrainBackwardOk(l, nextGrad)
    ensures |rows| == BATCH_SIZE
    ensures forall b :: 0 <= b < BATCH_SIZE ==> |rows[b]| == l.dim
  {
    seq(BATCH_SIZE, b requires 0 <= b < BATCH_SIZE =>
          GateRow(InputRow(l.inputBatch, l.inStride, l.dim, b), DenseRow(nextGrad, l.dim, b)))
  }

  /**
   * `TrainBackward`: row b of the gradient handed back is the incoming
   * gradient row b gated by the kept input row b (`TrainBackwardCell`).
   * Nothing else changes.
   */
  function TrainBackward(l: BitSignLayer, nextGrad: seq<real>): (r: BitSignLayer)
    requires l.Valid() && TrainBackwardOk(l, nextGrad)
    ensures r.Valid()
    ensures r.(gradsToPrev := l.gradsToPrev) == l
  {
    l.(gradsToPrev := Batch.Flat(GradRows(l, nextGrad), l.dim))
  }

  /**
   * Row view of `TrainBackward`: gradient i of row b handed back is
   * incoming gradient i of row b gated by value i of kept input row b. With
   * the rows' offsets this is `_gradsToPrev[b * COMPRESS_OUT_DIM + i]` gated
   * by input value b * PADDED_IN_BLOCKS + i.
   */
  lemma TrainBackwardCell(l: BitSignLayer, nextGrad: seq<real>, b: nat, i: nat)
    requires l.Valid() && TrainBackwardOk(l, nextGrad)
    requires b < BATCH_SIZE && i < l.dim
    ensures Batch.Row(TrainBackward(l, nextGrad).gradsToPrev, BATCH_SIZE, l.dim, b)[i]
         == Gate(InputRow(l.inputBatch, l.inStride, l.dim, b)[i], DenseRow(nextGrad, l.dim, b)[i])
  {
    var rows := GradRows(l, nextGrad);
    Batch.FlatRows(rows, l.dim);
    assert rows[b] == GateRow(InputRow(l.inputBatch, l.inStride, l.dim, b), DenseRow(nextGrad, l.dim, b));
  }

  /** No gradient handed back is larger in magnitude than the one that came in at its place. */
  lemma TrainBackwardBounded(l: BitSignLayer, nextGrad: seq<real>)
    requires l.Valid() && TrainBackwardOk(l, nextGrad)
    ensures forall j :: 0 <= j < BATCH_SIZE * l.dim ==>
              AbsReal(TrainBackward(l, nextGrad).gradsToPrev[j]) <= AbsReal(nextGrad[j])
  {
    var g := TrainBackward(l, nextGrad).gradsToPrev;
    forall j | 0 <= j < BATCH_SIZE * l.dim
      ensures AbsReal(g[j]) <= AbsReal(nextGrad[j])
    {
      var b, i := Batch.Split(BATCH_SIZE, l.dim, j);
      TrainBackwardCell(l, nextGrad, b, i);
      assert Batch.Row(g, BATCH_SIZE, l.dim, b)[i] == g[j];
      assert DenseRow(nextGrad, l.dim, b)[i] == nextGrad[j];
    }
  }

  /** `ResetWeight`: delegates to the predecessor; this layer has no weights of its own. */
  function ResetWeight(l: BitSignLayer): (r: BitSignLayer)
    ensures r == l
  {
    l
  }
}
