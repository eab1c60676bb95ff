/** `matrix_transpose`: a new matrix whose rows are the columns of the input.
    The entries are only moved, never inspected, so any entry type will do. */
module Transpose {
  import opened Matrices

  /** The first `w` columns of `m`, each as a row, defined row by row: the
      transpose of a matrix is the transpose of its remaining rows with the
      first row standing in front as the first column. With no rows left,
      there are `w` empty columns. */
  function Columns<T>(m: Matrix<T>, w: nat): (t: Matrix<T>)
    requires RowsAtLeast(m, w)
    ensures |t| == w
    decreases |m|
  {
    if m == [] then seq(w, _ => [])
    else
      var rest := Columns(m[1..], w);
      seq(w, c requires 0 <= c < w => [m[0][c]] + rest[c])
  }

  /** The transpose of a well-shaped matrix: as many rows as the first row
      has entries. */
  function Transposed<T>(m: Matrix<T>): Matrix<T>
    requires WellShaped(m)
  {
    Columns(m, |m[0]|)
  }

  /** Entry (c, r) of the row-by-row transpose is entry (r, c) of the input,
      and every result row has one entry per input row. */
  lemma {:induction false} ColumnsAt<T>(m: Matrix<T>, w: nat)
    requires RowsAtLeast(m, w)
    ensures forall c :: 0 <= c < w ==> |Columns(m, w)[c]| == |m|
    ensures forall c, r :: 0 <= c < w && 0 <= r < |m| ==> Columns(m, w)[c][r] == m[r][c]
    decreases |m|
  {
    if m != [] {
      var rest := Columns(m[1..], w);
      ColumnsAt(m[1..], w);
      var t := Columns(m, w);
      forall c, r | 0 <= c < w && 0 <= r < |m|
        ensures |t[c]| == |m| && t[c][r] == m[r][c]
      {
        assert t[c] == [m[0][c]] + rest[c];
        if r > 0 {
          assert t[c][r] == rest[c][r - 1];
        }
      }
    }
  }

  /** The transpose has `len(matrix[0])` rows of `len(matrix)` entries, and
      entry (i, j) of the result is entry (j, i) of the input. */
  lemma TransposedAt<T>(m: Matrix<T>)
    requires WellShaped(m)
    ensures |Transposed(m)| == |m[0]|
    ensures forall i :: 0 <= i < |m[0]| ==> |Transposed(m)[i]| == |m|
    ensures forall i, j :: 0 <= i < |m[0]| && 0 <= j < |m| ==> Transposed(m)[i][j] == m[j][i]
  {
    ColumnsAt(m, |m[0]|);
  }

  /** Nested-loop construction of the transpose: for every column index of
      the first row, a fresh row collecting that column from every row. */
  method MatrixTranspose<T>(matrix: Matrix<T>) returns (transpose: Matrix<T>)
    requires WellShaped(matrix)
    ensures |transpose| == |matrix[0]|
    ensures forall i :: 0 <= i < |transpose| ==> |transpose[i]| == |matrix|
    ensures forall i, j :: 0 <= i < |transpose| && 0 <= j < |matrix| ==> transpose[i][j] == matrix[j][i]
    ensures transpose == Transposed(matrix)
  {
    TransposedAt(matrix);
    ghost var spec := Transposed(matrix);
    transpose := [];
    var i := 0;
    while i < |matrix[0]|
      invariant 0 <= i <= |matrix[0]|
      invariant transpose == spec[..i]
    {
      var row := [];
      var j := 0;
      while j < |matrix|
        invariant 0 <= j <= |matrix|
        invariant row == spec[i][..j]
      {
        row := row + [matrix[j][i]];
        j := j + 1;
      }
      assert row == spec[i];
      transpose := transpose + [row];
      i := i + 1;
    }
    assert transpose == spec;
  }

  /** Transposing twice gives back the input cut to the width of its first
      row: rows longer than the first lose their extra entries. The first
      row must be non-empty, since the transpose of a matrix with an empty
      first row has no rows and cannot be transposed again. */
  lemma TransposeTwice<T>(m: Matrix<T>)
    requires WellShaped(m) && |m[0]| > 0
    ensures WellShaped(Transposed(m))
    ensures Transposed(Transposed(m)) == Truncated(m, |m[0]|)
  {
    var t := Transposed(m);
    TransposedAt(m);
    assert WellShaped(t);
    TransposedAt(t);
    var tt := Transposed(t);
    var want := Truncated(m, |m[0]|);
    forall j | 0 <= j < |m|
      ensures tt[j] == want[j]
    {
      assert |tt[j]| == |want[j]|;
      forall i | 0 <= i < |m[0]|
        ensures tt[j][i] == want[j][i]
      {
        assert tt[j][i] == t[i][j];
        assert t[i][j] == m[j][i];
      }
    }
  }

  /** Round trip: on a rectangular matrix with at least one column,
      transposing twice returns the original matrix. */
  lemma TransposeInvolution<T>(m: Matrix<T>)
    requires Rectangular(m) && |m[0]| > 0
    ensures WellShaped(Transposed(m))
    ensures Transposed(Transposed(m)) == m
  {
    TransposeTwice(m);
    TruncatedRectangular(m);
  }

  /** The transpose of a well-shaped matrix with a non-empty first row is
      rectangular: all its rows have `len(matrix)` entries. */
  lemma TransposedRectangular<T>(m: Matrix<T>)
    requires WellShaped(m) && |m[0]| > 0
    ensures Rectangular(Transposed(m))
  {
    TransposedAt(m);
  }
}
