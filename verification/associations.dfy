/** The association catalogue of `relazioni.associations`. Every function
    validates its arguments, then hands them to one routine of an external
    statistics library and returns that routine's scalar. The routines
    (scipy, scikit-learn, numpy, and the floating-point formulas around
    them) are not modelled: each is a parameter of the function that calls
    it, so nothing is assumed about its value. What is modelled is the guard
    in front of each routine and the vectors the routine receives. */
module Associations {
  import opened NdArrays
  import opened Consistency
  import opened Contingency

  type Vector = NdArray<real>

  /** An external statistic of two observation vectors. */
  type Statistic = (seq<real>, seq<real>) -> real

  /** A scalar result or the validation error that stopped the computation. */
  type Outcome = Result<real, real>

  /** The shared pattern: run `check_variables`, pass its error through
      unchanged, otherwise return the statistic of the two vectors. */
  function Guarded(v1: Vector, v2: Vector, stat: Statistic): (r: Outcome)
    ensures r.Ok? <==> Paired(v1, v2)
    ensures CheckVariables(v1, v2).Err? ==> r == Err(CheckVariables(v1, v2).error)
    ensures r.Ok? ==> |v1.elems| == |v2.elems| && r.value == stat(v1.elems, v2.elems)
  {
    var _ :- CheckVariables(v1, v2);
    Ok(stat(v1.elems, v2.elems))
  }

  /** The three vectors the `theils_u` formula combines element-wise:
      `v1[1:] - v2[1:]`, `v2[1:] - v2[:-1]`, and the divisor `v2[:-1]`. */
  datatype TheilTerms = TheilTerms(forecastError: seq<real>, actualChange: seq<real>, base: seq<real>)

  /** The slices of `theils_u` on two vectors of equal length: all three
      have one element fewer than the inputs (none for empty inputs), and
      element `i` of each reads positions `i` and `i + 1` only. */
  function TheilsUTerms(a: seq<real>, b: seq<real>): (t: TheilTerms)
    requires |a| == |b|
    ensures |t.forecastError| == |t.actualChange| == |t.base| == if |a| == 0 then 0 else |a| - 1
    ensures forall i :: 0 <= i < |t.base| ==>
              && t.forecastError[i] == a[i + 1] - b[i + 1]
              && t.actualChange[i] == b[i + 1] - b[i]
              && t.base[i] == b[i]
  {
    var base := DropLast(b);
    TheilTerms(Minus(DropFirst(a), DropFirst(b)), Minus(DropFirst(b), base), base)
  }

  /** `theils_u`: the shape check, then the ratio of the root sums of
      squared relative changes, a floating-point formula given here as
      `ratio` over the slices it reads. */
  function TheilsU(v1: Vector, v2: Vector, ratio: TheilTerms -> real): (r: Outcome)
    ensures r.Ok? <==> Paired(v1, v2)
    ensures CheckVariables(v1, v2).Err? ==> r == Err(CheckVariables(v1, v2).error)
    ensures r.Ok? ==> |v1.elems| == |v2.elems| && r.value == ratio(TheilsUTerms(v1.elems, v2.elems))
  {
    var _ :- CheckVariables(v1, v2);
    Ok(ratio(TheilsUTerms(v1.elems, v2.elems)))
  }

  /** `matthews_corr`: the binary-categorical check, then scikit-learn's
      `matthews_corrcoef`. It yields a value only on two equally long 1-D
      vectors that each take exactly two distinct values. */
  function MatthewsCorr(v1: Vector, v2: Vector, matthewsCorrcoef: Statistic): (r: Outcome)
    ensures r.Ok? <==> Paired(v1, v2) && TwoValued(v1.elems) && TwoValued(v2.elems)
    ensures CheckBinaryCategorical(v1, v2).Err? ==> r == Err(CheckBinaryCategorical(v1, v2).error)
    ensures CheckVariables(v1, v2).Err? ==> r == Err(CheckVariables(v1, v2).error)
    ensures r.Ok? ==> r.value == matthewsCorrcoef(v1.elems, v2.elems)
  {
    var _ :- CheckBinaryCategorical(v1, v2);
    Ok(matthewsCorrcoef(v1.elems, v2.elems))
  }

  function Min(a: nat, b: nat): nat
  {
    if a <= b then a else b
  }

  /** The bookkeeping `cramers_v` does around the chi-squared statistic:
      the cross-tabulation `ct`, its grand total `n` and `dof`, the smaller
      side of the table minus one. */
  datatype CramersTerms = CramersTerms(table: Table<real>, n: nat, dof: int)

  /** `n` is the number of paired observations and `dof` is one less than
      the smaller of the two distinct-value counts. */
  function CramersVTerms(a: seq<real>, b: seq<real>): (t: CramersTerms)
    requires |a| == |b|
    ensures t.table == Crosstab(a, b)
    ensures t.n == |a|
    ensures t.dof == Min(|Distinct(a)|, |Distinct(b)|) - 1
  {
    var ct := Crosstab(a, b);
    CrosstabTotal(a, b);
    CrosstabShape(a, b);
    CramersTerms(ct, Total(ct.counts), Min(|ct.rows|, |ct.cols|) - 1)
  }

  /** `cramers_v`: the shape check, the cross-tabulation, scipy's
      `chi2_contingency` without continuity correction (`chi2`), and the
      floating-point `sqrt(X2 / (n * dof))` (`scale`). */
  function CramersV(v1: Vector, v2: Vector, chi2: seq<seq<nat>> -> real, scale: (real, nat, int) -> real)
    : (r: Outcome)
    ensures r.Ok? <==> Paired(v1, v2)
    ensures CheckVariables(v1, v2).Err? ==> r == Err(CheckVariables(v1, v2).error)
    ensures r.Ok? ==>
              && |v1.elems| == |v2.elems|
              && r.value == scale(chi2(Crosstab(v1.elems, v2.elems).counts),
                                  |v1.elems|,
                                  Min(|Distinct(v1.elems)|, |Distinct(v2.elems)|) - 1)
  {
    var _ :- CheckVariables(v1, v2);
    var t := CramersVTerms(v1.elems, v2.elems);
    Ok(scale(chi2(t.table.counts), t.n, t.dof))
  }

  /** `kendalls_corr`: the shape check, then scipy's `kendalltau`. */
  function KendallsCorr(v1: Vector, v2: Vector, kendalltau: Statistic): (r: Outcome)
    ensures r.Ok? <==> Paired(v1, v2)
    ensures CheckVariables(v1, v2).Err? ==> r == Err(CheckVariables(v1, v2).error)
    ensures r.Ok? ==> r.value == kendalltau(v1.elems, v2.elems)
  {
    Guarded(v1, v2, kendalltau)
  }

  /** `spearmans_corr`: the shape check, then scipy's `spearmanr`. */
  function SpearmansCorr(v1: Vector, v2: Vector, spearmanr: Statistic): (r: Outcome)
    ensures r.Ok? <==> Paired(v1, v2)
    ensures CheckVariables(v1, v2).Err? ==> r == Err(CheckVariables(v1, v2).error)
    ensures r.Ok? ==> r.value == spearmanr(v1.elems, v2.elems)
  {
    Guarded(v1, v2, spearmanr)
  }

  /** `pointbiserial_corr`: the shape check, then scipy's `pointbiserialr`.
      Nothing checks that one of the vectors is binary. */
  function PointbiserialCorr(v1: Vector, v2: Vector, pointbiserialr: Statistic): (r: Outcome)
    ensures r.Ok? <==> Paired(v1, v2)
    ensures CheckVariables(v1, v2).Err? ==> r == Err(CheckVariables(v1, v2).error)
    ensures r.Ok? ==> r.value == pointbiserialr(v1.elems, v2.elems)
  {
    Guarded(v1, v2, pointbiserialr)
  }

  /** `pearson_corr`: the shape check, then the off-diagonal entry of
      numpy's `corrcoef` matrix. */
  function PearsonCorr(v1: Vector, v2: Vector, corrcoef: Statistic): (r: Outcome)
    ensures r.Ok? <==> Paired(v1, v2)
    ensures CheckVariables(v1, v2).Err? ==> r == Err(CheckVariables(v1, v2).error)
    ensures r.Ok? ==> r.value == corrcoef(v1.elems, v2.elems)
  {
    Guarded(v1, v2, corrcoef)
  }

  /** The fields of scipy's `linregress` result, in its unpacking order. */
  datatype LinRegress = LinRegress(slope: real, intercept: real, rvalue: real, pvalue: real, stderr: real)

  /** numpy's `y - (intercept + slope * x)` on two vectors of equal length. */
  function Residuals(y: seq<real>, x: seq<real>, fit: LinRegress): (res: seq<real>)
    requires |y| == |x|
    ensures |res| == |y|
    ensures forall i :: 0 <= i < |res| ==> res[i] + (fit.intercept + fit.slope * x[i]) == y[i]
  {
    seq(|y|, i requires 0 <= i < |y| => y[i] - (fit.intercept + fit.slope * x[i]))
  }

  /** `partial_corr`: the shape check on `(v1, v2)`, then on `(v2, v3)`;
      regress v1 on v3 and v2 on v3 (`linregress(x, y)` fits `y` against
      `x`); correlate the two residual vectors with numpy's `corrcoef`.
      Because the second check reuses v2, its `V1`/`V2` tags name v2 and v3. */
  function PartialCorr(v1: Vector, v2: Vector, v3: Vector,
                       linregress: (seq<real>, seq<real>) -> LinRegress, corrcoef: Statistic)
    : (r: Outcome)
    ensures r.Ok? <==> Paired(v1, v2) && Paired(v2, v3)
    ensures CheckVariables(v1, v2).Err? ==> r == Err(CheckVariables(v1, v2).error)
    ensures CheckVariables(v1, v2).Ok? && CheckVariables(v2, v3).Err? ==>
              r == Err(CheckVariables(v2, v3).error)
    ensures r.Ok? ==> |v1.elems| == |v2.elems| == |v3.elems|
    ensures r.Ok? ==>
              var a, b, c := v1.elems, v2.elems, v3.elems;
              r.value == corrcoef(Residuals(a, c, linregress(c, a)), Residuals(b, c, linregress(c, b)))
  {
    var _ :- CheckVariables(v1, v2);
    var _ :- CheckVariables(v2, v3);
    var a, b, c := v1.elems, v2.elems, v3.elems;
    var resV1V3 := Residuals(a, c, linregress(c, a));
    var resV2V3 := Residuals(b, c, linregress(c, b));
    Ok(corrcoef(resV1V3, resV2V3))
  }

  /** The residual vectors handed to the final correlation have the length
      of the inputs, so `corrcoef` receives two equally long vectors. */
  lemma PartialCorrResidualLengths(v1: Vector, v2: Vector, v3: Vector, linregress: (seq<real>, seq<real>) -> LinRegress)
    requires CheckVariables(v1, v2).Ok? && CheckVariables(v2, v3).Ok?
    ensures |v1.elems| == |v3.elems| && |v2.elems| == |v3.elems|
    ensures var a, b, c := v1.elems, v2.elems, v3.elems;
            |Residuals(a, c, linregress(c, a))| == |Residuals(b, c, linregress(c, b))| == |a|
  {
  }

  /** On input that fails validation no statistic is consulted: the outcome
      is the same whichever routine would have been called. */
  lemma StatisticIgnoredOnInvalidInput(v1: Vector, v2: Vector, s1: Statistic, s2: Statistic)
    requires CheckVariables(v1, v2).Err?
    ensures KendallsCorr(v1, v2, s1) == KendallsCorr(v1, v2, s2)
    ensures SpearmansCorr(v1, v2, s1) == SpearmansCorr(v1, v2, s2)
    ensures PointbiserialCorr(v1, v2, s1) == PointbiserialCorr(v1, v2, s2)
    ensures PearsonCorr(v1, v2, s1) == PearsonCorr(v1, v2, s2)
  {
  }

  /** The first inputs of the Matthews test pass the binary check. */
  lemma MatthewsTestInputsAccepted()
    ensures CheckBinaryCategorical<real>(Arr([4], [0.0, 0.0, 1.0, 1.0]), Arr([4], [0.0, 1.0, 0.0, 1.0])) == Ok(())
  {
    var a, b := [0.0, 0.0, 1.0, 1.0], [0.0, 1.0, 0.0, 1.0];
    assert Size([4]) == 4 by {
      assert [4][1..] == [];
    }
    var v1: Vector := Arr([4], a);
    var v2: Vector := Arr([4], b);
    assert Paired(v1, v2);
    TwoValuedIntro(a, 0.0, 1.0);
    TwoValuedIntro(b, 0.0, 1.0);
  }

  /** `matthews_corr` refuses a well-shaped pair whose first vector is
      constant, naming v1 and its single value, whatever v2 holds. */
  lemma MatthewsConstantRejected(v1: Vector, v2: Vector, f: Statistic)
    requires Paired(v1, v2) && |v1.elems| > 0
    requires forall i :: 0 <= i < |v1.elems| ==> v1.elems[i] == v1.elems[0]
    ensures MatthewsCorr(v1, v2, f) == Err(WrongCategoryCount(V1, {v1.elems[0]}))
  {
    ConstantRejected(v1.elems);
    BinaryCheckOrder(v1, v2);
  }

  /** A 2x2 matrix against four observations is a length mismatch (2 against
      4), not a dimension error: lengths are compared first. */
  lemma MatrixArgumentReportsLength(f: Statistic)
    ensures PearsonCorr(Arr([2, 2], [1.0, 2.0, 3.0, 4.0]), Arr([4], [1.0, 2.0, 3.0, 4.0]), f)
            == Err(LengthMismatch(2, 4))
  {
  }
}
