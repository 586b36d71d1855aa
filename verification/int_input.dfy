/**
 * The int8 input layer `IntInputLayer<InputBits>`
 * (src/layers/int/int_input.h). It owns a single-sample buffer of
 * `COMPRESS_OUT_DIM` values and a batch buffer of `BATCH_SIZE` rows of
 * `COMPRESS_OUT_DIM` values, and fills them from the network input.
 * Unlike the bit-packed layer there is no padding: input and output share
 * the unpadded row stride `COMPRESS_OUT_DIM`.
 */
module IntInput {
  import Batch
  import opened NetCommon

  datatype IntInputLayer = IntInputLayer(
    dim: nat,
    outputBuffer: seq<Int8>,
    outputBatchBuffer: seq<Int8>)
  {
    /** The buffers have the sizes the class declares. */
    predicate Valid()
    {
      && |outputBuffer| == dim
      && |outputBatchBuffer| == BATCH_SIZE * dim
    }
  }

  /** `Forward`: the single-sample buffer takes the first `COMPRESS_OUT_DIM` input values. */
  function Forward(l: IntInputLayer, netInput: seq<Int8>): (r: IntInputLayer)
    requires l.Valid() && l.dim <= |netInput|
    ensures r.Valid() && r.dim == l.dim
    ensures forall i :: 0 <= i < l.dim ==> r.outputBuffer[i] == netInput[i]
    ensures r.outputBatchBuffer == l.outputBatchBuffer
  {
    l.(outputBuffer := netInput[..l.dim])
  }

  /**
   * `TrainForward`: the batch buffer takes the input's first `BATCH_SIZE`
   * rows; the single-sample buffer is left alone.
   */
  function TrainForward(l: IntInputLayer, netInput: seq<Int8>): (r: IntInputLayer)
    requires l.Valid() && BATCH_SIZE * l.dim <= |netInput|
    ensures r.Valid() && r.dim == l.dim
    ensures forall j :: 0 <= j < BATCH_SIZE * l.dim ==> r.outputBatchBuffer[j] == netInput[j]
    ensures r.outputBuffer == l.outputBuffer
  {
    l.(outputBatchBuffer := netInput[..BATCH_SIZE * l.dim])
  }

  /** Cell view of `TrainForward`: value i of row b is the input's value i of row b. */
  lemma TrainForwardCell(l: IntInputLayer, netInput: seq<Int8>, b: nat, i: nat)
    requires l.Valid() && BATCH_SIZE * l.dim <= |netInput|
    requires b < BATCH_SIZE && i < l.dim
    ensures b * l.dim + i < |netInput|
    ensures Batch.At(TrainForward(l, netInput).outputBatchBuffer, l.dim, b, i) == netInput[b * l.dim + i]
  {
    Batch.CellInBounds(BATCH_SIZE, l.dim, b, i);
  }

  /**
   * The nested copy loop of `TrainForward`, row by row and column by column,
   * with the row shift `b * COMPRESS_OUT_DIM`. It produces the batch buffer of
   * the layer-level `TrainForward`: the input's first `BATCH_SIZE` rows.
   */
  method TrainForwardLoop(l: IntInputLayer, netInput: seq<Int8>) returns (buf: seq<Int8>)
    requires l.Valid() && BATCH_SIZE * l.dim <= |netInput|
    ensures |buf| == BATCH_SIZE * l.dim
    ensures forall j :: 0 <= j < |buf| ==> buf[j] == netInput[j]
    ensures buf == TrainForward(l, netInput).outputBatchBuffer
  {
    var dim := l.dim;
    buf := l.outputBatchBuffer;
    var b := 0;
    while b < BATCH_SIZE
      invariant 0 <= b <= BATCH_SIZE
      invariant |buf| == BATCH_SIZE * dim
      invariant forall j :: 0 <= j < b * dim ==> buf[j] == netInput[j]
    {
      var batchShiftOut := b * dim;
      Batch.MulMonotone(b + 1, BATCH_SIZE, dim);
      assert batchShiftOut + dim == (b + 1) * dim;
      var i := 0;
      while i < dim
        invariant 0 <= i <= dim
        invariant |buf| == BATCH_SIZE * dim
        invariant forall j :: 0 <= j < batchShiftOut + i ==> buf[j] == netInput[j]
      {
        Batch.CellInBounds(BATCH_SIZE, dim, b, i);
        buf := buf[batchShiftOut + i := netInput[batchShiftOut + i]];
        i := i + 1;
      }
      b := b + 1;
    }
  }

  /** `ResetWeight`: the input layer has no weights. */
  function ResetWeight(l: IntInputLayer): (r: IntInputLayer)
    ensures r == l
  {
    l
  }

  /** `TrainBackward`: the gradient handed down is discarded. */
  function TrainBackward(l: IntInputLayer, nextGrad: seq<real>): (r: IntInputLayer)
    ensures r == l
  {
    l
  }

  /** Repeating `Forward` with the same input changes nothing further. */
  lemma ForwardIdempotent(l: IntInputLayer, netInput: seq<Int8>)
    requires l.Valid() && l.dim <= |netInput|
    ensures Forward(Forward(l, netInput), netInput) == Forward(l, netInput)
  {
  }

  /** Repeating `TrainForward` with the same input changes nothing further. */
  lemma TrainForwardIdempotent(l: IntInputLayer, netInput: seq<Int8>)
    requires l.Valid() && BATCH_SIZE * l.dim <= |netInput|
    ensures TrainForward(TrainForward(l, netInput), netInput) == TrainForward(l, netInput)
  {
  }

  /** The result of `Forward` depends only on the input, not on what the buffer held. */
  lemma ForwardForgetsState(l: IntInputLayer, l': IntInputLayer, netInput: seq<Int8>)
    requires l.Valid() && l'.Valid() && l.dim == l'.dim && l.dim <= |netInput|
    ensures Forward(l, netInput).outputBuffer == Forward(l', netInput).outputBuffer
  {
  }

  /** `Forward` and `TrainForward` touch disjoint buffers, so they commute. */
  lemma ForwardsCommute(l: IntInputLayer, sample: seq<Int8>, batch: seq<Int8>)
    requires l.Valid() && l.dim <= |sample| && BATCH_SIZE * l.dim <= |batch|
    ensures TrainForward(Forward(l, sample), batch) == Forward(TrainForward(l, batch), sample)
  {
  }
}
