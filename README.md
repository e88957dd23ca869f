# GeodePy uncertainty statistics, modelled in Dafny

A model of `geodepy/statistics.py`, GeodePy's positional-uncertainty statistics for
geodetic survey networks, with proofs about it. The model covers:

- the rotation matrix between the Cartesian (geocentric) frame and the local
  east/north/up frame at a latitude and longitude (`rotation_matrix`);
- the transformation of a variance-covariance matrix (VCV) between the two frames in
  both directions (`vcv_cart2local`, `vcv_local2cart`). That includes the shape check
  (3x1 or 3x3), the expansion of a 3x1 column of variances into a diagonal 3x3 matrix,
  and the congruences `R' * V * R` and `R * V * R'`;
- the circularised horizontal positional uncertainty of an error ellipse (`circ_hz_pu`);
- the 95% coverage factor from Student's t distribution (`k_val95` and its 120-entry
  table `ttable_p95`).

Numbers are exact Dafny `real`s. Dafny has no trigonometry, so the caller supplies the
sine and cosine of each angle as a `SinCos` pair. The properties that need a real angle
require `sin^2 + cos^2 = 1` (`OnUnitCircle`). The functions accept any pair, just as the
source accepts any latitude and longitude.

Files:

- `matrix3.dfy`, module `Matrix3`: 3-vectors and 3x3 matrices stored by rows. It holds
  the hand-written product, transpose, matrix-vector product and determinant that stand
  in for numpy's `@` and `.transpose()`. It also holds the algebra the proofs use:
  associativity, the transpose of a product, the identity, and the facts that a
  congruence keeps a matrix symmetric and keeps it positive semidefinite.
- `statistics.dfy`, module `Statistics`: the source module itself.

Errors are values of `Result`:

- `InvalidShape`: a VCV that is not 3x1 or 3x3.
- `DivisionByZero`: `circ_hz_pu` with `a = 0`.
- `NotAnInteger`: `k_val95` with a value that is not an `int`.

A numpy VCV argument is an `Array2`. That is a two-dimensional array carrying its shape
`(rows, cols)` and its rows of entries, and it is always rectangular.

## Model

| member | source | states |
|---|---|---|
| `Statistics.RotationOrthonormal` | geodepy/statistics.py:13-17 | when sin^2 + cos^2 = 1 for latitude and longitude, R' * R = I and R * R' = I |
| `Statistics.RotationDeterminant` | geodepy/statistics.py:13-17 | under the same condition, det R = 1, so R is a proper rotation |
| `Statistics.FullVcv` | geodepy/statistics.py:29-39 | fails with InvalidShape exactly when rows != 3 or cols is neither 1 nor 3; a 3x1 column becomes the 3x3 matrix with the variances on the diagonal and zeros elsewhere; a 3x3 array is taken entry for entry |
| `Statistics.VcvCart2Local` | geodepy/statistics.py:21-42 | rejects exactly the shapes that are not 3x1 or 3x3, with InvalidShape; otherwise always returns a full 3x3 matrix, which is symmetric whenever the (expanded) input is |
| `Statistics.VcvLocal2Cart` | geodepy/statistics.py:45-66 | the same shape rule, 3x3 result and symmetry preservation for the local-to-Cartesian direction |
| `Statistics.ColumnExpansion` | geodepy/statistics.py:30-33 | in both directions a 3x1 column [v0, v1, v2] gives exactly the result of the 3x3 input diag(v0, v1, v2), and is never rejected |
| `Statistics.CartLocalCartRoundTrip` | geodepy/statistics.py:41 | with R orthonormal, vcv_local2cart(vcv_cart2local(V)) = V for every 3x3 V |
| `Statistics.LocalCartLocalRoundTrip` | geodepy/statistics.py:65 | with R orthonormal, vcv_cart2local(vcv_local2cart(V)) = V for every 3x3 V |
| `Statistics.ColumnRoundTrip` | geodepy/statistics.py:30-42 | a 3x1 column comes back from a round trip as its 3x3 diagonal matrix, never as the column: the function returns the expanded matrix, not the column its docstring promises |
| `Statistics.ConversionsKeepValidVcv` | geodepy/statistics.py:41 | at any latitude and longitude both conversions map a symmetric positive semidefinite VCV to a symmetric positive semidefinite VCV with non-negative variances |
| `Statistics.ColumnGivesValidVcv` | geodepy/statistics.py:30-33 | a column of non-negative variances converts, in both directions, to a symmetric positive semidefinite VCV |
| `Matrix3.CongruenceSymmetric` | geodepy/statistics.py:41 | M' * V * M is symmetric for every symmetric V and every M, not only for rotations |
| `Matrix3.CongruencePositiveSemidefinite` | geodepy/statistics.py:65 | M' * V * M is positive semidefinite for every positive semidefinite V and every M |
| `Statistics.CircHzPu` | geodepy/statistics.py:83-95 | fails with DivisionByZero exactly when a = 0, where b / a divides by zero; otherwise returns a result |
| `Statistics.CircFactorIncreasing` | geodepy/statistics.py:92 | the cubic q0 + q1 c + q2 c^2 + q3 c^3 never decreases for c >= 0, and strictly increases |
| `Statistics.CircHzPuBounds` | geodepy/statistics.py:87-93 | for a > 0 and 0 <= b <= a: 1.960790 * a <= r <= 2.450762 * a, and r = 2.450762 * a exactly when b = a |
| `Statistics.CircHzPuMonotone` | geodepy/statistics.py:91-93 | for a > 0 the radius strictly grows with the semi-minor axis b >= 0 |
| `Statistics.CircHzPuScale` | geodepy/statistics.py:91-93 | scaling both axes by t != 0 scales the radius by t |
| `Statistics.TTableP95Shape` | geodepy/statistics.py:120-139 | the table has exactly 120 entries, strictly decreasing from 12.7062 to 1.97993 |
| `Statistics.TTableP95Range` | geodepy/statistics.py:120-139 | every table entry lies between 1.97993 and 12.7062 |
| `Statistics.KVal95` | geodepy/statistics.py:98-117 | fails with NotAnInteger exactly for a value that is not an int; every returned k lies between 1.96 and 12.7062 |
| `Statistics.KVal95Clamped` | geodepy/statistics.py:112-115 | every dof < 1 gives 12.7062 (the first table entry); every dof > 120 gives 1.96 |
| `Statistics.KVal95Lookup` | geodepy/statistics.py:116-117 | for 1 <= dof <= 120 the table index dof - 1 is in bounds and k is that entry |
| `Statistics.KVal95Examples` | geodepy/statistics.py:110-139 | k(1) = 12.7062, k(120) = 1.97993, k(121) = 1.96, k(0) = 12.7062; a non-int value is refused |
| `Statistics.KVal95NonIncreasing` | geodepy/statistics.py:112-139 | k never increases as dof grows, and it strictly decreases from dof = 1 to dof = 121 |

## Left out

- `radians`, `sin` and `cos` (geodepy/statistics.py:12): Dafny has no trigonometry. The
  caller supplies each angle's sine and cosine, and `OnUnitCircle` stands for
  "these come from a real angle".
- `error_ellipse` (geodepy/statistics.py:69-80) is not modelled. It rests on `sqrt` and
  `atan2`, which are transcendental, so its orientation angle cannot be stated exactly
  over reals.
- Floating-point rounding: every result is the exact real value. numpy's arrays, `@` and
  `.transpose()` are modelled by the hand-written functions of `Matrix3`.
- Arrays that are not two-dimensional are not modelled. A one-dimensional array whose
  length is not 3 fails the `shape[0] == 3` test and reaches the `sys.exit` call
  (a NameError, see below). Only a one-dimensional array of length 3 reaches `shape[1]`,
  which raises IndexError.
- Process termination: on a rejected shape the source calls `sys.exit`, but `sys` is
  never imported, so the call actually raises NameError. Either way, no matrix is
  returned. Both outcomes are modelled as `Err(InvalidShape)`.
- The docstrings of lines 22-25 and 46-49 say that a 3x1 input gives back only its 3x1
  column of variances. The code returns the full 3x3 matrix, and the model follows the
  code (see `ColumnRoundTrip`).
- `circ_hz_pu` with `a = 0` raises ZeroDivisionError in Python. It is modelled as
  `Err(DivisionByZero)`.
- The `isinstance(dof, int)` check is modelled by the argument type `Dof`. Any value that
  is not an int, a float such as 2.0 among them, is `OtherValue` and gives
  `Err(NotAnInteger)`. Python's `bool` counts as an int; here that is simply
  `IntValue(0)` or `IntValue(1)`.
- `ttable_p95` is written as twenty rows of six entries, concatenated in order
  (`TTableP95Lines`, `Concat`). The value is the same 120-entry list.
