/** Shared vocabulary of the list-of-lists matrix utilities: a matrix is a
    sequence of rows, each row a sequence of entries. */
module Matrices {

  /** A matrix given as a list of rows. Nothing forces the rows to have the
      same length: the utilities only ever look at the first row to learn
      the number of columns. */
  type Matrix<T> = seq<seq<T>>

  /** The absent result that signals "shapes are not compatible". */
  datatype Option<+T> = None | Some(value: T)

  /** Every row is at least `w` entries long, so that columns `0 .. w-1`
      can be read from every row. */
  predicate RowsAtLeast<T>(m: Matrix<T>, w: nat)
  {
    forall j :: 0 <= j < |m| ==> w <= |m[j]|
  }

  /** The inputs the utilities accept without an index error: at least one
      row, and no row shorter than the first one (longer rows are allowed
      and are read only up to the width of the first row). */
  predicate WellShaped<T>(m: Matrix<T>)
  {
    m != [] && RowsAtLeast(m, |m[0]|)
  }

  /** Every row has exactly the length of the first row. */
  predicate Rectangular<T>(m: Matrix<T>)
  {
    m != [] && forall j :: 0 <= j < |m| ==> |m[j]| == |m[0]|
  }

  /** Every row cut to its first `w` entries: the part of the matrix that
      the utilities actually look at. */
  function Truncated<T>(m: Matrix<T>, w: nat): (t: Matrix<T>)
    requires RowsAtLeast(m, w)
    ensures |t| == |m| && RowsAtLeast(t, w)
    ensures forall j, i :: 0 <= j < |m| && 0 <= i < w ==> t[j][i] == m[j][i]
  {
    seq(|m|, j requires 0 <= j < |m| => m[j][..w])
  }

  /** A rectangular matrix is its own truncation to its width. */
  lemma TruncatedRectangular<T>(m: Matrix<T>)
    requires Rectangular(m)
    ensures WellShaped(m) && Truncated(m, |m[0]|) == m
  {
    var t := Truncated(m, |m[0]|);
    forall j | 0 <= j < |m|
      ensures t[j] == m[j]
    {
      assert m[j][..|m[0]|] == m[j];
    }
  }
}
