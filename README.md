# Matrix utilities of alu-machine_learning, modelled in Dafny

This project models the two list-of-lists matrix utilities of the
`math/linear_algebra` package:

- `matrix_transpose` builds a new matrix whose rows are the columns of its
  input, with two nested loops that append to fresh lists. It is modelled as
  the method `Transpose.MatrixTranspose`, whose loops build the result in the
  same order. The method is proved equal to `Transpose.Transposed`, a
  row-by-row recursive definition of the transpose: the first input row
  becomes the first column of the transpose of the remaining rows.
- `add_matrices2D` returns the elementwise sum of two matrices, or `None`
  when their shapes differ. It is modelled as the function
  `Addition.AddMatrices`, which returns an `Option`.

Matrices are sequences of rows (`Matrices.Matrix<T>`). The transpose only
moves entries, so it is generic in the entry type. Addition uses `int`
entries. The rows need not have the same length, because the source never
checks that. Both utilities learn the
column count from the first row alone. They raise `IndexError` when that row
does not exist or when another row is shorter than it. The model makes these
cases preconditions:

- `Matrices.WellShaped`: at least one row, and no row shorter than the first.
  Rows longer than the first are accepted, and their extra entries are
  ignored.
- `Addition.AddDefined`: `add_matrices2D` compares the row counts first and
  short-circuits. So unequal row counts give `None` even when one matrix is
  empty. Two empty matrices raise. Once both shape tests pass, both matrices
  must be well-shaped.

The shape test compares only the row counts and the lengths of the first
rows (`5-across_the_planes.py:12`). So `None` reports only a difference in
the row count or in the first row's length. A later row that is shorter than
`mat1[0]` raises `IndexError`, and the model excludes that input by its
precondition. A later row that is longer is silently cut to the width of
`mat1[0]`.

## Model

| member | source | states |
|---|---|---|
| `Transpose.MatrixTranspose` | math/linear_algebra/3-flip_me_over.py:9-20 | for a well-shaped matrix, the loops return `len(matrix[0])` rows of `len(matrix)` entries each, with `transpose[i][j] == matrix[j][i]`; the result equals the recursive specification `Transposed` |
| `Transpose.ColumnsAt` | math/linear_algebra/3-flip_me_over.py:4-5 | in the row-by-row definition, rows become columns: entry (c, r) is input entry (r, c), and each column has one entry per input row |
| `Transpose.TransposedAt` | math/linear_algebra/3-flip_me_over.py:15-19 | the transpose has `len(matrix[0])` rows, each with `len(matrix)` entries, and `result[i][j] == matrix[j][i]` |
| `Transpose.TransposedRectangular` | math/linear_algebra/3-flip_me_over.py:16-19 | when the first row is non-empty, the transpose of a matrix is rectangular, even if the input's rows are ragged |
| `Transpose.TransposeTwice` | math/linear_algebra/3-flip_me_over.py:14-20 | transposing twice returns the input with every row cut to the width of the first row; this needs a non-empty first row |
| `Transpose.TransposeInvolution` | math/linear_algebra/3-flip_me_over.py:14-20 | round trip: for a rectangular matrix with at least one column, transposing twice returns the original matrix |
| `Matrices.TruncatedRectangular` | math/linear_algebra/3-flip_me_over.py:15-18 | for a rectangular matrix, reading each row up to the width of the first row reads all of it |
| `Addition.AddMatrices` | math/linear_algebra/5-across_the_planes.py:7-16 | defined exactly on `AddDefined`, the inputs that raise no `IndexError`; the result is `None` exactly when the row counts or the first-row lengths differ (`ShapesDiffer`), and otherwise it is the elementwise sum (`IsSum`), with `len(mat1)` rows of `len(mat1[0])` entries; `AddIsTheSum` and `AddCommutes` state more about it |
| `Addition.AddIsTheSum` | math/linear_algebra/5-across_the_planes.py:14-16 | when the shapes agree, a matrix is the result exactly when it has the right shape and every entry is `mat1[i][j] + mat2[i][j]` |
| `Addition.AddCommutes` | math/linear_algebra/5-across_the_planes.py:12-16 | swapping the operands keeps the input legal and gives the same outcome, both for `None` and for the sum |

## Left out

- Neural-network and neuron classes (`supervised_learning/classification/14-neural_network.py`, `3-neuron.py`): these do floating-point numerics with `np.exp`, `np.log`, `np.matmul` and `np.random.randn`. Dafny has no counterpart for these, so they are not part of this model.
- `IndexError` is not modelled as an outcome. The inputs that raise it are excluded by the preconditions `Matrices.WellShaped` and `Addition.AddDefined`.
- Entries of added matrices are mathematical integers. Python's `+` on floats (rounding, NaN) and on other element types is not modelled.
- The source reads its inputs and builds its results from fresh lists, so the inputs are never mutated. The model works on immutable sequences, so this holds by construction. Aliasing between the result and the inputs cannot be expressed, so it is not stated.
