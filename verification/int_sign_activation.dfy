/**
 * The int8 sign activation `IntSignActivation<PreviousLayer_t>`
 * (src/layers/int/int_sign_activation.h), in training mode.
 *
 * `TrainForward` turns every value x of the predecessor's batch output into
 * +1 with probability (hardtanh(x) + 1) / 2 and into -1 otherwise.
 * `TrainBackward` gates the incoming gradient with the derivative of
 * hardtanh. Input, output and gradient rows all have the unpadded stride
 * `COMPRESS_OUT_DIM`, so value i of row b sits at flat index
 * b * COMPRESS_OUT_DIM + i everywhere.
 *
 * As in the bit-packed layer, the predecessor is not held: its batch
 * output (`double` values, here `real`) is an argument of `TrainForward`
 * and is kept in the state, and the draws of `Random::GetReal01()` are a
 * sequence consumed in loop order.
 */
module IntSignActivation {
  import Batch
  import BitSignActivation
  import opened NetCommon

  // ---------------------------------------------------------------------
  // One value

  /** `std::max(-1.0, std::min(1.0, x))`: hardtanh on a double. */
  function HardTanh(x: real): (h: real)
    ensures -1.0 <= h <= 1.0
    ensures h == x <==> -1.0 <= x <= 1.0
    ensures x > 1.0 ==> h == 1.0
    ensures x < -1.0 ==> h == -1.0
  {
    if x < -1.0 then -1.0 else if x > 1.0 then 1.0 else x
  }

  /** hardtanh never decreases. */
  lemma HardTanhMonotone(x1: real, x2: real)
    requires x1 <= x2
    ensures HardTanh(x1) <= HardTanh(x2)
  {
  }

  /** `(htanh + 1.0) / 2.0`: the probability of emitting +1. */
  function ProbPositive(h: real): (p: real)
    requires -1.0 <= h <= 1.0
    ensures 0.0 <= p <= 1.0
    ensures p == 0.0 <==> h == -1.0
    ensures p == 1.0 <==> h == 1.0
  {
    (h + 1.0) / 2.0
  }

  /**
   * `Random::GetReal01() < probPositive ? 1 : -1`: the sign drawn for x with
   * the uniform draw `rand` in [0, 1).
   */
  function SampleSign(x: real, rand: real): (s: Int8)
    ensures s == 1 || s == -1
    ensures 0.0 <= rand < 1.0 && x >= 1.0 ==> s == 1
    ensures 0.0 <= rand && x <= -1.0 ==> s == -1
  {
    if rand < ProbPositive(HardTanh(x)) then 1 else -1
  }

  /** For a fixed draw, a larger input never turns a +1 into a -1. */
  lemma SampleSignMonotone(x1: real, x2: real, rand: real)
    requires x1 <= x2 && SampleSign(x1, rand) == 1
    ensures SampleSign(x2, rand) == 1
  {
    HardTanhMonotone(x1, x2);
  }

  /**
   * On an int8 input the int layer draws +1 exactly when the bit-packed
   * layer draws a set bit, with the same draw.
   */
  lemma SampleSignAgreesWithBit(x: Int8, rand: real)
    ensures SampleSign(x as real, rand) == 1 <==> BitSignActivation.SampleBit(x, rand)
  {
  }

  /**
   * `std::abs(x) <= 1 ? g : 0`: the derivative of hardtanh applied to the
   * gradient g, which passes where hardtanh is the identity and is cut to 0
   * where it clips.
   */
  function Gate(x: real, g: real): (r: real)
    ensures HardTanh(x) == x ==> r == g
    ensures HardTanh(x) != x ==> r == 0.0
    ensures AbsReal(r) <= AbsReal(g)
  {
    if AbsReal(x) <= 1.0 then g else 0.0
  }

  // ---------------------------------------------------------------------
  // The layer

  datatype IntSignLayer = IntSignLayer(
    dim: nat,
    outputBuffer: seq<Int8>,
    outputBatchBuffer: seq<Int8>,
    gradsToPrev: seq<real>,
    inputBatch: seq<real>)
  {
    /**
     * `dim` is `COMPRESS_IN_DIM` = `COMPRESS_OUT_DIM`. The gradient handed
     * back has one row per batch entry, as in the bit-packed layer (see
     * `TrainBackwardAsWritten` for the source's single row).
     */
    predicate Valid()
    {
      && |outputBuffer| == dim
      && |outputBatchBuffer| == BATCH_SIZE * dim
      && |gradsToPrev| == BATCH_SIZE * dim
    }
  }

  /** Whether the predecessor's output and the draws cover what `TrainForward` reads. */
  predicate TrainForwardOk(l: IntSignLayer, input: seq<real>, draws: seq<real>)
  {
    BATCH_SIZE * l.dim <= |input| && BATCH_SIZE * l.dim <= |draws|
  }

  /**
   * `TrainForward`: value b * COMPRESS_OUT_DIM + i of the batch output is
   * the sign drawn for the input value at the same place with draw number
   * b * COMPRESS_OUT_DIM + i. The input is kept for `TrainBackward`.
   */
  function TrainForward(l: IntSignLayer, input: seq<real>, draws: seq<real>): (r: IntSignLayer)
    requires l.Valid() && TrainForwardOk(l, input, draws)
    ensures r.Valid() && r.dim == l.dim && r.inputBatch == input
    ensures r.outputBuffer == l.outputBuffer && r.gradsToPrev == l.gradsToPrev
    ensures forall j :: 0 <= j < BATCH_SIZE * l.dim ==> r.outputBatchBuffer[j] == SampleSign(input[j], draws[j])
    ensures forall j :: 0 <= j < BATCH_SIZE * l.dim ==> r.outputBatchBuffer[j] == 1 || r.outputBatchBuffer[j] == -1
  {
    var n := BATCH_SIZE * l.dim;
    l.(outputBatchBuffer := seq(n, j requires 0 <= j < n => SampleSign(input[j], draws[j])),
       inputBatch := input)
  }

  /**
   * The nested loops of `TrainForward`, drawing one random number per
   * value. The k-th call to the random source serves value i of row b
   * with k = b * COMPRESS_OUT_DIM + i, and exactly `BATCH_SIZE *
   * COMPRESS_OUT_DIM` draws are used.
   */
  method TrainForwardLoop(l: IntSignLayer, input: seq<real>, draws: seq<real>) returns (out: seq<Int8>, used: nat)
    requires l.Valid() && TrainForwardOk(l, input, draws)
    ensures used == BATCH_SIZE * l.dim
    ensures out == TrainForward(l, input, draws).outputBatchBuffer
  {
    var dim := l.dim;
    out := l.outputBatchBuffer;
    used := 0;
    var b := 0;
    while b < BATCH_SIZE
      invariant 0 <= b <= BATCH_SIZE
      invariant used == b * dim
      invariant |out| == BATCH_SIZE * dim
      invariant forall j :: 0 <= j < b * dim ==> out[j] == SampleSign(input[j], draws[j])
    {
      var batchShiftOut := b * dim;
      Batch.MulMonotone(b + 1, BATCH_SIZE, dim);
      assert batchShiftOut + dim == (b + 1) * dim;
      var i := 0;
      while i < dim
        invariant 0 <= i <= dim
        invariant used == batchShiftOut + i
        invariant |out| == BATCH_SIZE * dim
        invariant forall j :: 0 <= j < batchShiftOut + i ==> out[j] == SampleSign(input[j], draws[j])
      {
        Batch.CellInBounds(BATCH_SIZE, dim, b, i);
        var x := input[batchShiftOut + i];
        var rand := draws[used];
        out := out[batchShiftOut + i := SampleSign(x, rand)];
        used := used + 1;
        i := i + 1;
      }
      b := b + 1;
    }
  }

  /** Whether the kept input and the incoming gradient cover what `TrainBackward` reads. */
  predicate TrainBackwardOk(l: IntSignLayer, nextGrad: seq<real>)
  {
    BATCH_SIZE * l.dim <= |l.inputBatch| && BATCH_SIZE * l.dim <= |nextGrad|
  }

  /**
   * `TrainBackward`, indexed by batch row: gradient b * COMPRESS_OUT_DIM + i
   * handed back is incoming gradient b * COMPRESS_OUT_DIM + i gated by the
   * kept input at the same place. Nothing else changes.
   */
  function TrainBackward(l: IntSignLayer, nextGrad: seq<real>): (r: IntSignLayer)
    requires l.Valid() && TrainBackwardOk(l, nextGrad)
    ensures r.Valid()
    ensures r.(gradsToPrev := l.gradsToPrev) == l
    ensures forall j :: 0 <= j < BATCH_SIZE * l.dim ==> r.gradsToPrev[j] == Gate(l.inputBatch[j], nextGrad[j])
  {
    var n := BATCH_SIZE * l.dim;
    l.(gradsToPrev := seq(n, j requires 0 <= j < n => Gate(l.inputBatch[j], nextGrad[j])))
  }

  /** No gradient handed back is larger in magnitude than the one that came in at its place. */
  lemma TrainBackwardBounded(l: IntSignLayer, nextGrad: seq<real>)
    requires l.Valid() && TrainBackwardOk(l, nextGrad)
    ensures forall j :: 0 <= j < BATCH_SIZE * l.dim ==>
              AbsReal(TrainBackward(l, nextGrad).gradsToPrev[j])
              <= AbsReal(nextGrad[j])
  {
  }

  /** The gated gradient of row b alone: value i gated by input value b * COMPRESS_OUT_DIM + i. */
  function RowGrads(input: seq<real>, nextGrad: seq<real>, dim: nat, b: nat): (g: seq<real>)
    requires BATCH_SIZE * dim <= |input| && BATCH_SIZE * dim <= |nextGrad| && b < BATCH_SIZE
    ensures |g| == dim
    ensures forall i :: 0 <= i < dim ==>
              b * dim + i < |input| && b * dim + i < |nextGrad|
              && g[i] == Gate(input[b * dim + i], nextGrad[b * dim + i])
  {
    Batch.MulMonotone(b + 1, BATCH_SIZE, dim);
    seq(dim, i requires 0 <= i < dim => Gate(input[b * dim + i], nextGrad[b * dim + i]))
  }

  /**
   * The loops of `TrainBackward` as written: `_gradsToPrev` has
   * `COMPRESS_IN_DIM` entries and entry i is overwritten by every row b, so
   * after the loops it holds the gated gradient of row `BATCH_SIZE - 1`
   * only and the other rows are lost.
   */
  method TrainBackwardAsWritten(dim: nat, gradsToPrev: seq<real>, input: seq<real>, nextGrad: seq<real>)
      returns (grads: seq<real>)
    requires |gradsToPrev| == dim
    requires BATCH_SIZE * dim <= |input| && BATCH_SIZE * dim <= |nextGrad|
    ensures grads == RowGrads(input, nextGrad, dim, BATCH_SIZE - 1)
  {
    grads := gradsToPrev;
    var b := 0;
    while b < BATCH_SIZE
      invariant 0 <= b <= BATCH_SIZE
      invariant |grads| == dim
      invariant b > 0 ==> grads == RowGrads(input, nextGrad, dim, b - 1)
    {
      ghost var row := RowGrads(input, nextGrad, dim, b);
      var batchShiftOut := b * dim;
      var i := 0;
      while i < dim
        invariant 0 <= i <= dim
        invariant |grads| == dim
        invariant forall k :: 0 <= k < i ==> grads[k] == row[k]
      {
        Batch.CellInBounds(BATCH_SIZE, dim, b, i);
        var g := nextGrad[batchShiftOut + i];
        if AbsReal(input[batchShiftOut + i]) <= 1.0 {
          grads := grads[i := g];
        } else {
          grads := grads[i := 0.0];
        }
        i := i + 1;
      }
      assert grads == row;
      b := b + 1;
    }
  }

  /**
   * With one value per row, a gradient that row 0 passes and row 15 cuts
   * is lost: the source hands back 0 where the row-indexed gradient is 1.
   */
  lemma TrainBackwardLosesRows()
    ensures var input := [0.0] + seq(BATCH_SIZE - 1, _ => 2.0);
            var nextGrad := seq(BATCH_SIZE, _ => 1.0);
            var l := IntSignLayer(1, [0], seq(BATCH_SIZE, _ => 0), seq(BATCH_SIZE, _ => 0.0), input);
            && RowGrads(input, nextGrad, 1, BATCH_SIZE - 1) == [0.0]
            && TrainBackward(l, nextGrad).gradsToPrev[0] == 1.0
  {
    var input := [0.0] + seq(BATCH_SIZE - 1, _ => 2.0);
    var nextGrad := seq(BATCH_SIZE, _ => 1.0);
    var last := RowGrads(input, nextGrad, 1, BATCH_SIZE - 1);
    assert (BATCH_SIZE - 1) * 1 + 0 == 15;
    assert input[15] == 2.0;
    assert last[0] == Gate(2.0, 1.0) == 0.0;
  }

  /** `Forward` is unimplemented: it changes nothing and returns `_outputBuffer`. */
  function Forward(l: IntSignLayer, netInput: seq<Int8>): (r: (IntSignLayer, seq<Int8>))
    ensures r.0 == l && r.1 == l.outputBuffer
  {
    (l, l.outputBuffer)
  }

  /** `ResetWeight`: delegates to the predecessor; this layer has no weights of its own. */
  function ResetWeight(l: IntSignLayer): (r: IntSignLayer)
    ensures r == l
  {
    l
  }
}
