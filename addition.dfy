/** `add_matrices2D`: the elementwise sum of two matrices, or the absent
    result when their shapes differ. */
module Addition {
  import opened Matrices

  /** The inputs on which `add_matrices2D` returns instead of raising an
      index error. The first row of `a` is read only when the row counts
      agree (the shape test short-circuits), so two empty matrices are the
      only inputs the test itself cannot handle; once both shape tests pass,
      every row of both matrices is read up to the width of `a`'s first row. */
  predicate AddDefined(a: Matrix<int>, b: Matrix<int>)
  {
    (|a| == |b| ==> a != []) &&
    (|a| == |b| && a != [] && |a[0]| == |b[0]| ==> WellShaped(a) && WellShaped(b))
  }

  /** The shape test: the row counts differ, or the first rows' lengths do. */
  predicate ShapesDiffer(a: Matrix<int>, b: Matrix<int>)
    requires AddDefined(a, b)
  {
    |a| != |b| || |a[0]| != |b[0]|
  }

  /** `s` is the elementwise sum of `a` and `b`: it has `a`'s row count,
      every row has the width of `a`'s first row, and each entry is the sum
      of the entries at the same position. */
  predicate IsSum(s: Matrix<int>, a: Matrix<int>, b: Matrix<int>)
    requires WellShaped(a) && |b| == |a| && RowsAtLeast(b, |a[0]|)
  {
    |s| == |a| &&
    (forall i :: 0 <= i < |s| ==> |s[i]| == |a[0]|) &&
    (forall i, j :: 0 <= i < |a| && 0 <= j < |a[0]| ==> s[i][j] == a[i][j] + b[i][j])
  }

  /** Returns `None` exactly when the shape test fails; otherwise a fresh
      matrix of entrywise sums, rows and columns ranging over `a`'s shape,
      so a present result is never a partly built matrix. */
  function AddMatrices(a: Matrix<int>, b: Matrix<int>): (r: Option<Matrix<int>>)
    requires AddDefined(a, b)
    ensures r.None? <==> ShapesDiffer(a, b)
    ensures r.Some? ==> IsSum(r.value, a, b)
  {
    if |a| != |b| || |a[0]| != |b[0]| then None
    else Some(seq(|a|, i requires 0 <= i < |a| =>
                seq(|a[0]|, j requires 0 <= j < |a[0]| => a[i][j] + b[i][j])))
  }

  /** The elementwise sum is unique: a matrix is the result of a successful
      addition exactly when it has the right shape and the right entries. */
  lemma AddIsTheSum(a: Matrix<int>, b: Matrix<int>, s: Matrix<int>)
    requires AddDefined(a, b) && !ShapesDiffer(a, b)
    ensures AddMatrices(a, b) == Some(s) <==> IsSum(s, a, b)
  {
    if IsSum(s, a, b) {
      var r := AddMatrices(a, b).value;
      forall i | 0 <= i < |a|
        ensures r[i] == s[i]
      {
        assert |r[i]| == |s[i]|;
        forall j | 0 <= j < |a[0]|
          ensures r[i][j] == s[i][j]
        {
        }
      }
      assert r == s;
    }
  }

  /** Addition commutes, for the absent result as well as for the sum: the
      inputs can be swapped without raising an error and without changing
      the outcome. */
  lemma AddCommutes(a: Matrix<int>, b: Matrix<int>)
    requires AddDefined(a, b)
    ensures AddDefined(b, a)
    ensures AddMatrices(a, b) == AddMatrices(b, a)
  {
    if !ShapesDiffer(a, b) {
      var ab := AddMatrices(a, b).value;
      var ba := AddMatrices(b, a).value;
      forall i | 0 <= i < |a|
        ensures ab[i] == ba[i]
      {
        assert |ab[i]| == |ba[i]|;
      }
      assert ab == ba;
    }
  }
}
