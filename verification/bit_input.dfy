/**
 * The bit-packed input layer `BitInputLayer<InputBits>`
 * (src/layers/bit/bit_input.h). It owns a single-sample buffer of
 * `PADDED_OUT_BLOCKS` bytes and a batch buffer of `BATCH_SIZE` rows of
 * `PADDED_OUT_BLOCKS` bytes, and copies the `COMPRESS_OUT_BLOCKS` bytes
 * that hold real input bits; the rest of each row is padding that only
 * `Init` writes.
 */
module BitInput {
  import Layout
  import Batch
  import Bits
  import opened NetCommon

  datatype BitInputLayer = BitInputLayer(
    inputBits: nat,
    outputBuffer: seq<BitBlock>,
    outputBatchBuffer: seq<BitBlock>)
  {
    /**
     * The buffers have the sizes the class declares, and the width is one
     * whose batch buffer bound is an `int` (`BatchBufferFits`).
     */
    predicate Valid()
    {
      && inputBits <= MAX_BIT_LAYER_DIM
      && |outputBuffer| == PaddedOutBlocks(inputBits)
      && |outputBatchBuffer| == BATCH_SIZE * PaddedOutBlocks(inputBits)
    }
  }

  /** Whether a single-sample input has the bytes `Forward` reads. */
  predicate ForwardInputOk(inputBits: nat, netInput: seq<BitBlock>)
    requires inputBits <= Layout.MAX_LAYER_DIM
  {
    CompressOutBlocks(inputBits) <= |netInput|
  }

  /**
   * Whether a batch input, laid out with the same padded row stride as the
   * output, has the bytes `TrainForward` reads: the data bytes of every row.
   */
  predicate TrainInputOk(inputBits: nat, netInput: seq<BitBlock>)
    requires inputBits <= Layout.MAX_LAYER_DIM
  {
    RowsReadable(CompressOutBlocks(inputBits), PaddedOutBlocks(inputBits), |netInput|)
  }

  /** Padding bytes, in both buffers, are zero. */
  predicate PaddingZero(l: BitInputLayer)
    requires l.Valid()
  {
    var c := CompressOutBlocks(l.inputBits);
    var p := PaddedOutBlocks(l.inputBits);
    && (forall k :: c <= k < p ==> l.outputBuffer[k] == Bits.BYTE_ZERO)
    && (forall j :: 0 <= j < |l.outputBatchBuffer| && j % p >= c ==> l.outputBatchBuffer[j] == Bits.BYTE_ZERO)
  }

  /** The two-input configuration used for the XOR experiments. */
  lemma TwoInputSizes()
    ensures PaddedOutBits(2) == 256
    ensures PaddedOutBlocks(2) == 32
    ensures CompressOutBlocks(2) == 1
  {
  }

  /** `Init`: both buffers are cleared. */
  function Init(l: BitInputLayer): (r: BitInputLayer)
    requires l.Valid()
    ensures r.Valid() && r.inputBits == l.inputBits
    ensures forall k :: 0 <= k < |r.outputBuffer| ==> r.outputBuffer[k] == Bits.BYTE_ZERO
    ensures forall j :: 0 <= j < |r.outputBatchBuffer| ==> r.outputBatchBuffer[j] == Bits.BYTE_ZERO
    ensures PaddingZero(r)
  {
    l.(outputBuffer := Zeros(|l.outputBuffer|), outputBatchBuffer := Zeros(|l.outputBatchBuffer|))
  }

  /** `Forward`: copy the data bytes of one sample; the returned buffer is `outputBuffer`. */
  function Forward(l: BitInputLayer, netInput: seq<BitBlock>): (r: BitInputLayer)
    requires l.Valid() && ForwardInputOk(l.inputBits, netInput)
    ensures r.Valid() && r.inputBits == l.inputBits
    ensures r.outputBatchBuffer == l.outputBatchBuffer
    ensures CompressOutBlocks(l.inputBits) <= |r.outputBuffer|
    ensures forall k :: 0 <= k < CompressOutBlocks(l.inputBits) ==> r.outputBuffer[k] == netInput[k]
    ensures forall k :: CompressOutBlocks(l.inputBits) <= k < |r.outputBuffer| ==> r.outputBuffer[k] == l.outputBuffer[k]
  {
    PaddedSizes(l.inputBits);
    var c := CompressOutBlocks(l.inputBits);
    l.(outputBuffer := seq(|l.outputBuffer|, k requires 0 <= k < |l.outputBuffer| =>
                             if k < c then netInput[k] else l.outputBuffer[k]))
  }

  lemma TrainReadInBounds(c: nat, p: nat, n: nat, j: nat)
    requires RowsReadable(c, p, n)
    requires j < BATCH_SIZE * p
    ensures p > 0
    ensures j % p < c ==> j < n
  {
    Batch.RowOfIndex(BATCH_SIZE, p, j);
    Batch.RowCol(p, j);
    Batch.MulMonotone(j / p, BATCH_SIZE - 1, p);
  }

  /**
   * `TrainForward`: copy the data bytes of every row; input and output share
   * the padded row stride. The returned buffer is `outputBatchBuffer`.
   */
  function TrainForward(l: BitInputLayer, netInput: seq<BitBlock>): (r: BitInputLayer)
    requires l.Valid() && TrainInputOk(l.inputBits, netInput)
    ensures r.Valid() && r.inputBits == l.inputBits
    ensures r.outputBuffer == l.outputBuffer
  {
    var c := CompressOutBlocks(l.inputBits);
    var p := PaddedOutBlocks(l.inputBits);
    assert forall j :: 0 <= j < |l.outputBatchBuffer| && j % p < c ==> j < |netInput| by {
      forall j | 0 <= j < |l.outputBatchBuffer| && j % p < c
        ensures j < |netInput|
      {
        TrainReadInBounds(c, p, |netInput|, j);
      }
    }
    l.(outputBatchBuffer :=
         seq(|l.outputBatchBuffer|, j requires 0 <= j < |l.outputBatchBuffer| =>
               if j % p < c then netInput[j] else l.outputBatchBuffer[j]))
  }

  /**
   * Cell view of `TrainForward`: byte i of row b is the input's byte i of
   * row b when i < COMPRESS_OUT_BLOCKS, and unchanged otherwise.
   */
  lemma TrainForwardCell(l: BitInputLayer, netInput: seq<BitBlock>, b: nat, i: nat)
    requires l.Valid() && TrainInputOk(l.inputBits, netInput)
    requires b < BATCH_SIZE && i < PaddedOutBlocks(l.inputBits)
    ensures 0 <= b * PaddedOutBlocks(l.inputBits) + i < |l.outputBatchBuffer|
    ensures && (i < CompressOutBlocks(l.inputBits) ==> b * PaddedOutBlocks(l.inputBits) + i < |netInput|)
            && Batch.At(TrainForward(l, netInput).outputBatchBuffer, PaddedOutBlocks(l.inputBits), b, i)
               == if i < CompressOutBlocks(l.inputBits)
                  then netInput[b * PaddedOutBlocks(l.inputBits) + i]
                  else Batch.At(l.outputBatchBuffer, PaddedOutBlocks(l.inputBits), b, i)
  {
    var c := CompressOutBlocks(l.inputBits);
    var p := PaddedOutBlocks(l.inputBits);
    CellColumn(c, p, |netInput|, b, i);
    TrainForwardByte(l, netInput, b * p + i);
  }

  /** Flat index b * p + i has column i, and lies in the input when i < c. */
  lemma CellColumn(c: nat, p: nat, n: nat, b: nat, i: nat)
    requires RowsReadable(c, p, n)
    requires b < BATCH_SIZE && i < p
    ensures 0 <= b * p + i < BATCH_SIZE * p
    ensures (b * p + i) % p == i
    ensures i < c ==> b * p + i < n
  {
    var j := b * p + i;
    Batch.CellInBounds(BATCH_SIZE, p, b, i);
    Batch.RowCol(p, j);
    Batch.CellsDistinct(p, j / p, j % p, b, i);
    TrainReadInBounds(c, p, n, j);
  }

  /** Byte view of `TrainForward`: a byte changes only in a data column, to the input's byte. */
  lemma TrainForwardByte(l: BitInputLayer, netInput: seq<BitBlock>, j: nat)
    requires l.Valid() && TrainInputOk(l.inputBits, netInput)
    requires j < |l.outputBatchBuffer|
    ensures PaddedOutBlocks(l.inputBits) > 0
    ensures j % PaddedOutBlocks(l.inputBits) < CompressOutBlocks(l.inputBits) ==> j < |netInput|
    ensures TrainForward(l, netInput).outputBatchBuffer[j]
         == if j % PaddedOutBlocks(l.inputBits) < CompressOutBlocks(l.inputBits)
            then netInput[j] else l.outputBatchBuffer[j]
  {
    TrainReadInBounds(CompressOutBlocks(l.inputBits), PaddedOutBlocks(l.inputBits), |netInput|, j);
  }

  /** `ResetWeight`: nothing to reset. */
  function ResetWeight(l: BitInputLayer): (r: BitInputLayer)
    ensures r == l
  {
    l
  }

  /** `TrainBackward`: the gradient handed down is discarded. */
  function TrainBackward(l: BitInputLayer, nextGrad: seq<real>): (r: BitInputLayer)
    ensures r == l
  {
    l
  }

  /** `Save`: the input layer writes nothing to the parameter stream. */
  function Save(l: BitInputLayer): (written: seq<BitBlock>)
    ensures |written| == 0
  {
    []
  }

  /** `Load`: the input layer reads nothing from the parameter stream. */
  function Load(l: BitInputLayer, stream: seq<BitBlock>): (r: (BitInputLayer, seq<BitBlock>))
    ensures r.0 == l && r.1 == stream
  {
    (l, stream)
  }

  // ---------------------------------------------------------------------
  // Padding stays zero

  datatype Call = ForwardCall(input: seq<BitBlock>) | TrainForwardCall(input: seq<BitBlock>)

  predicate Accepts(inputBits: nat, c: Call)
    requires inputBits <= Layout.MAX_LAYER_DIM
  {
    match c
    case ForwardCall(input) => ForwardInputOk(inputBits, input)
    case TrainForwardCall(input) => TrainInputOk(inputBits, input)
  }

  function Apply(l: BitInputLayer, c: Call): (r: BitInputLayer)
    requires l.Valid() && Accepts(l.inputBits, c)
    ensures r.Valid() && r.inputBits == l.inputBits
  {
    match c
    case ForwardCall(input) => Forward(l, input)
    case TrainForwardCall(input) => TrainForward(l, input)
  }

  /** A sequence of `Forward` / `TrainForward` calls, in order. */
  function Run(l: BitInputLayer, calls: seq<Call>): (r: BitInputLayer)
    requires l.Valid()
    requires forall k :: 0 <= k < |calls| ==> Accepts(l.inputBits, calls[k])
    ensures r.Valid() && r.inputBits == l.inputBits
    decreases |calls|
  {
    if |calls| == 0 then l else Run(Apply(l, calls[0]), calls[1..])
  }

  lemma ForwardKeepsPadding(l: BitInputLayer, netInput: seq<BitBlock>)
    requires l.Valid() && ForwardInputOk(l.inputBits, netInput) && PaddingZero(l)
    ensures PaddingZero(Forward(l, netInput))
  {
  }

  lemma TrainForwardKeepsPadding(l: BitInputLayer, netInput: seq<BitBlock>)
    requires l.Valid() && TrainInputOk(l.inputBits, netInput) && PaddingZero(l)
    ensures PaddingZero(TrainForward(l, netInput))
  {
    var r := TrainForward(l, netInput);
    var c := CompressOutBlocks(l.inputBits);
    var p := PaddedOutBlocks(l.inputBits);
    forall j | 0 <= j < |r.outputBatchBuffer| && j % p >= c
      ensures r.outputBatchBuffer[j] == Bits.BYTE_ZERO
    {
      TrainForwardByte(l, netInput, j);
    }
  }

  lemma ApplyKeepsPadding(l: BitInputLayer, c: Call)
    requires l.Valid() && Accepts(l.inputBits, c) && PaddingZero(l)
    ensures PaddingZero(Apply(l, c))
  {
    match c
    case ForwardCall(input) => ForwardKeepsPadding(l, input);
    case TrainForwardCall(input) => TrainForwardKeepsPadding(l, input);
  }

  /** After `Init`, any sequence of forward calls leaves the padding bytes zero. */
  lemma {:induction false} PaddingStaysZero(l: BitInputLayer, calls: seq<Call>)
    requires l.Valid()
    requires forall k :: 0 <= k < |calls| ==> Accepts(l.inputBits, calls[k])
    ensures PaddingZero(Run(Init(l), calls))
  {
    RunKeepsPadding(Init(l), calls);
  }

  lemma {:induction false} RunKeepsPadding(l: BitInputLayer, calls: seq<Call>)
    requires l.Valid() && PaddingZero(l)
    requires forall k :: 0 <= k < |calls| ==> Accepts(l.inputBits, calls[k])
    ensures PaddingZero(Run(l, calls))
    decreases |calls|
  {
    if |calls| > 0 {
      ApplyKeepsPadding(l, calls[0]);
      RunKeepsPadding(Apply(l, calls[0]), calls[1..]);
    }
  }

  /** Repeating `Forward` or `TrainForward` with the same input changes nothing further. */
  lemma ForwardIdempotent(l: BitInputLayer, netInput: seq<BitBlock>)
    requires l.Valid() && ForwardInputOk(l.inputBits, netInput)
    ensures Forward(Forward(l, netInput), netInput) == Forward(l, netInput)
  {
    var once := Forward(l, netInput);
    assert Forward(once, netInput).outputBuffer == once.outputBuffer;
  }

  lemma TrainForwardIdempotent(l: BitInputLayer, netInput: seq<BitBlock>)
    requires l.Valid() && TrainInputOk(l.inputBits, netInput)
    ensures TrainForward(TrainForward(l, netInput), netInput) == TrainForward(l, netInput)
  {
    var once := TrainForward(l, netInput);
    var twice := TrainForward(once, netInput);
    forall j | 0 <= j < |l.outputBatchBuffer|
      ensures twice.outputBatchBuffer[j] == once.outputBatchBuffer[j]
    {
      TrainForwardByte(l, netInput, j);
      TrainForwardByte(once, netInput, j);
    }
    assert twice.outputBatchBuffer == once.outputBatchBuffer;
  }
}
