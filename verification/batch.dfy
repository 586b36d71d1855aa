/**
 * Row-major ("[batch_index][feature_index]") buffers: element i of row b
 * of a buffer with row stride `stride` sits at index b * stride + i.
 */
module Batch {

  /** Element i of row b. */
  function At<T>(buf: seq<T>, stride: nat, b: nat, i: nat): T
    requires b * stride + i < |buf|
  {
    buf[b * stride + i]
  }

  lemma MulMonotone(a: nat, c: nat, s: nat)
    requires a <= c
    ensures a * s <= c * s
  {
  }

  /** A cell of one of the first `rows` rows lies inside `rows * stride`. */
  lemma CellInBounds(rows: nat, stride: nat, b: nat, i: nat)
    requires b < rows && i < stride
    ensures b * stride + i < rows * stride
  {
    MulMonotone(b + 1, rows, stride);
  }

  /** Cells of rows of width `stride` do not overlap. */
  lemma CellsDistinct(stride: nat, b: nat, i: nat, b': nat, i': nat)
    requires i < stride && i' < stride
    requires b * stride + i == b' * stride + i'
    ensures b == b' && i == i'
  {
    if b < b' {
      MulMonotone(b + 1, b', stride);
    } else if b' < b {
      MulMonotone(b' + 1, b, stride);
    }
  }

  /** Recovering (row, column) from a flat index. */
  lemma RowCol(stride: nat, j: nat)
    requires stride > 0
    ensures j == (j / stride) * stride + j % stride
    ensures 0 <= j % stride < stride
  {
  }

  /** A flat index below rows * stride lies in one of the first `rows` rows. */
  lemma RowOfIndex(rows: nat, stride: nat, j: nat)
    requires j < rows * stride
    ensures stride > 0 && j / stride < rows
  {
    if stride > 0 && j / stride >= rows {
      MulMonotone(rows, j / stride, stride);
    }
  }

  /** Row b of a buffer of n rows of stride p. */
  function Row<T>(buf: seq<T>, n: nat, p: nat, b: nat): (r: seq<T>)
    requires b < n && |buf| == n * p
    ensures |r| == p
    ensures forall k :: 0 <= k < p ==> b * p + k < |buf| && r[k] == buf[b * p + k]
  {
    MulMonotone(b + 1, n, p);
    buf[b * p..b * p + p]
  }

  /** Rows of equal width p laid end to end. */
  function Flat<T>(rows: seq<seq<T>>, p: nat): (buf: seq<T>)
    requires forall b :: 0 <= b < |rows| ==> |rows[b]| == p
    ensures |buf| == |rows| * p
  {
    if |rows| == 0 then [] else Flat(rows[..|rows| - 1], p) + rows[|rows| - 1]
  }

  /** Element k of row b of `Flat(rows)` is element k of `rows[b]`. */
  lemma {:induction false} FlatAt<T>(rows: seq<seq<T>>, p: nat, b: nat, k: nat)
    requires forall b :: 0 <= b < |rows| ==> |rows[b]| == p
    requires b < |rows| && k < p
    ensures b * p + k < |rows| * p
    ensures Flat(rows, p)[b * p + k] == rows[b][k]
  {
    var n := |rows| - 1;
    var init := rows[..n];
    assert Flat(rows, p) == Flat(init, p) + rows[n];
    if b < n {
      FlatAt(init, p, b, k);
      MulMonotone(b + 1, n, p);
    } else {
      assert b * p + k == n * p + k;
    }
  }

  /** Row b of `Flat(rows)` is `rows[b]`. */
  lemma FlatRows<T>(rows: seq<seq<T>>, p: nat)
    requires forall b :: 0 <= b < |rows| ==> |rows[b]| == p
    ensures forall b :: 0 <= b < |rows| ==> Row(Flat(rows, p), |rows|, p, b) == rows[b]
  {
    var buf := Flat(rows, p);
    forall b | 0 <= b < |rows|
      ensures Row(buf, |rows|, p, b) == rows[b]
    {
      var r := Row(buf, |rows|, p, b);
      forall k | 0 <= k < p
        ensures r[k] == rows[b][k]
      {
        FlatAt(rows, p, b, k);
        assert r[k] == buf[b * p + k];
      }
    }
  }

  /** A flat index below n * p is column i of row b for one (b, i). */
  lemma Split(n: nat, p: nat, j: nat) returns (b: nat, i: nat)
    requires j < n * p
    ensures b < n && i < p && j == b * p + i
  {
    RowOfIndex(n, p, j);
    RowCol(p, j);
    b, i := j / p, j % p;
  }
}
