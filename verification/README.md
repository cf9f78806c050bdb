# relazioni: input validation and guarded association functions

`relazioni` is a small Python library of named association measures between
observation vectors: Theil's U, Matthews' correlation, Cramér's V, Kendall's
tau, Spearman's rho, point-biserial, Pearson and partial correlation. Each
measure validates its numpy-array arguments with one of two validators from
`utils.consistency` and then delegates the arithmetic to scipy, scikit-learn,
pandas or numpy. This Dafny project models that validation layer, raise
site by raise site, and the guard-then-delegate shell of every association
function.

Modules:

- `NdArrays` (`ndarrays.dfy`): an argument is either an ndarray, with a
  shape and its elements, or some other Python object known by its type
  name. The module also has Python's `s[1:]` and `s[:-1]` slices and numpy's
  element-wise subtraction.
- `Consistency` (`consistency.dfy`): `check_variables` and
  `check_binary_categorical` as functions returning `Ok(())` or the first
  error raised. Each error variant carries the values its message shows.
- `Contingency` (`contingency.dfy`): `pandas.crosstab` abstracted as pair
  counting, with its total and shape proved.
- `Associations` (`associations.dfy`): the eight association functions.
  Each external routine is a function-typed parameter, so nothing is assumed
  about its value. Examples are scipy's `kendalltau`, numpy's `corrcoef` and
  the floating-point formula of `theils_u`.

What the validators raise, as the code is written:

- Every explicit raise in `check_variables` and `check_binary_categorical`
  is a `ValueError`. The model keeps one error variant per raise site, so
  the errors can be told apart by the condition that failed.
- Calling `len()` on a 0-d array raises a `TypeError` before any dimension
  check. The model includes this as `Unsized`, so the full order of checks
  is: v1 type, v2 type, v1 sized, v2 sized, equal lengths, v1 ndim, v2 ndim.
- The binary messages say a vector "contains more than one or two unique
  values" (the v2 message reads "more than one two"), but the test is
  `!= 2`. The model follows the test, so a constant vector and a
  vector with three or more values are both rejected.

## Model

| member | source | states |
|---|---|---|
| Consistency.CheckVariables | src/utils/consistency.py:5-33 | The check passes exactly on two 1-D ndarrays with the same number of elements. Otherwise the error is fixed by the first failing condition, in this order: a non-array v1 (its type name), a non-array v2 (its type name), a 0-d v1, a 0-d v2, unequal lengths (both lengths), v1 not 1-D (its ndim), v2 not 1-D (its ndim). |
| Consistency.LengthMismatchRejected | src/utils/consistency.py:22-23 | Two 1-D arrays of different lengths are always rejected with the length error, which carries both lengths. |
| Consistency.NdimRejected | src/utils/consistency.py:25-33 | Two arrays of equal length that are not both 1-D are rejected with the dimension error of the first non-1-D argument, carrying its ndim. |
| Consistency.CheckVariablesSymmetric | src/utils/consistency.py:16-33 | `(v1, v2)` passes iff `(v2, v1)` passes. A length mismatch on one order is a length mismatch with swapped lengths on the other. |
| NdArrays.Distinct | src/utils/consistency.py:49-51 | `np.unique` of a vector is empty exactly when the vector is. It never has more entries than the vector has elements. |
| Consistency.DistinctTwoIff | src/utils/consistency.py:49-59 | "`np.unique` has exactly two entries" is equivalent to the independent description "two different values occur and no other". |
| Consistency.CheckBinaryCategorical | src/utils/consistency.py:36-59 | Any shape error is returned unchanged. The check passes iff the pair passes the shape check and each vector takes exactly two distinct values. On a well-shaped pair every failure is a category error. It names v1 iff v1 is not two-valued, and carries the distinct values of the vector it names. |
| Consistency.ConstantRejected | src/utils/consistency.py:51-54 | A nonempty constant vector has exactly one distinct value, its first element, and is not two-valued: this is the lower side of the boundary. |
| Consistency.ThreeValuesRejected | src/utils/consistency.py:51-59 | A vector holding three different values has at least three distinct values and is not two-valued: this is the upper side of the boundary. |
| Consistency.BinaryCheckOrder | src/utils/consistency.py:49-54 | On a well-shaped pair, a non-binary v1 is reported, with its distinct values, before v2 is inspected. |
| Consistency.BinaryCheckSecond | src/utils/consistency.py:56-59 | On a well-shaped pair with a binary v1, a non-binary v2 is reported as the v2 category error, carrying v2's distinct values. |
| Contingency.Crosstab | src/relazioni/associations.py:154 | The row labels are the distinct values of v1, each once. The column labels are the distinct values of v2, each once. There is one row of counts per row label. The cell contents and the total are stated by the three lemmas below. |
| Contingency.CrosstabTotal | src/relazioni/associations.py:154-157 | The sum of all cells of the cross-tabulation equals the number of paired observations. |
| Contingency.CrosstabShape | src/relazioni/associations.py:154-158 | The table has one row per distinct value of v1 and one column per distinct value of v2. |
| Contingency.CrosstabCell | src/relazioni/associations.py:154 | Cell `(i, j)` is the number of positions holding the i-th v1 label and the j-th v2 label together. |
| NdArrays.DropFirst | src/relazioni/associations.py:57-58 | Python's `s[1:]` has one element fewer than `s`, or none for an empty `s`, and element `i` is `s[i + 1]`. |
| NdArrays.DropLast | src/relazioni/associations.py:57-58 | Python's `s[:-1]` has one element fewer than `s`, or none for an empty `s`, and element `i` is `s[i]`. |
| NdArrays.Minus | src/relazioni/associations.py:57-58 | numpy's `a - b` on equally long vectors has their length, and each element plus `b[i]` gives back `a[i]`. |
| Associations.Guarded | src/relazioni/associations.py:218-220 | This is the guard shared by `kendalls_corr`, `spearmans_corr`, `pointbiserial_corr` and `pearson_corr`, also at lines 278, 348 and 418. It yields a value iff the pair is two equally long 1-D arrays. A shape error is returned unchanged. Otherwise the result is the statistic of the two vectors. |
| Associations.TheilsUTerms | src/relazioni/associations.py:57-59 | On equally long inputs the slices `v1[1:] - v2[1:]`, `v2[1:] - v2[:-1]` and `v2[:-1]` all have length `len - 1`, or 0 for empty inputs, so the element-wise operations are well defined. Element `i` reads only positions `i` and `i + 1`. |
| Associations.TheilsU | src/relazioni/associations.py:55-61 | A shape error propagates unchanged. Otherwise the formula is applied to the slices of two equally long 1-D vectors. |
| Associations.MatthewsCorr | src/relazioni/associations.py:105-109 | Yields a value iff both vectors are 1-D, equally long and take exactly two distinct values each. Shape and category errors propagate unchanged. |
| Associations.CramersVTerms | src/relazioni/associations.py:154-158 | The table total `n` equals the number of pairs. `dof` equals the smaller of the two distinct-value counts minus one. |
| Associations.CramersV | src/relazioni/associations.py:152-162 | A shape error propagates unchanged. Otherwise the result combines the chi-squared statistic of the cross-tabulation with `n` equal to the number of pairs and `dof` equal to min(distinct v1, distinct v2) - 1. |
| Associations.KendallsCorr | src/relazioni/associations.py:218-222 | A shape error propagates unchanged. Otherwise the result is `kendalltau` of the two vectors. |
| Associations.SpearmansCorr | src/relazioni/associations.py:278-282 | A shape error propagates unchanged. Otherwise the result is `spearmanr` of the two vectors. |
| Associations.PointbiserialCorr | src/relazioni/associations.py:348-352 | A shape error propagates unchanged. Otherwise the result is `pointbiserialr` of the two vectors; no binary check is made. |
| Associations.PearsonCorr | src/relazioni/associations.py:418-422 | A shape error propagates unchanged. Otherwise the result is the off-diagonal `corrcoef` entry of the two vectors. |
| Associations.Residuals | src/relazioni/associations.py:504-508 | Each residual added back to the fitted value `intercept + slope * x` gives the observation. There is one residual per observation. |
| Associations.PartialCorr | src/relazioni/associations.py:499-512 | A `(v1, v2)` fault is reported before any `(v2, v3)` fault. Success implies all three vectors are 1-D with `len(v1) == len(v2) == len(v3)`. The result correlates the residuals of v1 and of v2 regressed on v3. |
| Associations.PartialCorrResidualLengths | src/relazioni/associations.py:502-510 | After both checks pass, both residual vectors have the inputs' length, so the final correlation receives equally long vectors. |
| Associations.StatisticIgnoredOnInvalidInput | src/relazioni/associations.py:218-420 | On input failing the shape check, the outcome of Kendall, Spearman, point-biserial and Pearson does not depend on the statistic routine, which is never consulted. |
| Associations.MatthewsTestInputsAccepted | tests/associations.py:14-15 | The first Matthews test vectors, `[0,0,1,1]` and `[0,1,0,1]`, pass the binary check. |
| Associations.MatthewsConstantRejected | src/relazioni/associations.py:105-107 | On a well-shaped pair with a constant, nonempty v1, `matthews_corr` fails with the v1 category error carrying v1's single value, whatever v2 is. |
| Associations.MatrixArgumentReportsLength | src/utils/consistency.py:22-28 | A 2x2 matrix against four observations yields the length error (2 against 4), not the dimension error. |

## Left out

- The statistics themselves are not modelled: `chi2_contingency`, `kendalltau`, `spearmanr`, `pointbiserialr`, `matthews_corrcoef`, `linregress` and `np.corrcoef`. They are foreign floating-point routines and appear as function parameters with no assumed properties.
- The floating-point formulas are not modelled: `np.sqrt`, the `theils_u` ratio and `sqrt(X2 / (n * dof))` in `cramers_v`. Only the vectors and counts they receive are modelled. Numeric failures are not modelled either, such as division by zero for a constant vector or `linregress` refusing identical x values. These propagate from the library in the source.
- The `theils_u` ratio is not modelled, including how it departs from the textbook definition of Theil's U2. Only the slices it reads are modelled.
- Element subtraction in `theils_u` and `partial_corr` uses exact real arithmetic, not IEEE doubles.
- numpy dtypes and broadcasting are not modelled. Arrays hold reals in the catalogue; the validators are generic in the element type.
- Consistency.CheckBinaryCategorical: the `TypeError` that `np.unique` raises while sorting an object array whose values cannot be ordered (such as `np.array([1, 'a'], dtype=object)`) is not modelled. The model only needs equality on elements, so on such input it returns `Ok` or a category error where the source raises.
- Message texts are not modelled. Errors are tagged variants carrying the values the messages print.
- Label order is not modelled. pandas sorts the row and column labels of `crosstab`, while the model keeps first-occurrence order. Cell positions therefore differ by a permutation, though the shape, the total and every count per label pair agree. pandas' dropping of NaN labels is not modelled.
- Input immutability is not modelled as a separate property. In the source, neither validator changes its inputs or returns a value on success. Here every function is pure, and the validators return `Ok(())`.
- Packaging (`setup.py`), the print-based demo and the numeric expected values of the tests are out of scope.
