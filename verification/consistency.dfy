/** The input validators of `utils.consistency`: the general shape check
    every association function runs, and the binary-categorical check that
    adds the exactly-two-distinct-values condition. Both are pure: they only
    inspect their arguments and either succeed with no value or report the
    first condition that fails. */
module Consistency {
  import opened NdArrays

  /** Which parameter of the validator an error is about (`v1` or `v2` in
      the messages). */
  datatype Arg = V1 | V2

  /** The exceptions the validators raise, one variant per raise site,
      carrying the values the message shows. */
  datatype Error<T> =
    | NotNdArray(arg: Arg, typeName: string)       // ValueError: type must be np.ndarray
    | Unsized(arg: Arg)                            // TypeError: len() of a 0-d array
    | LengthMismatch(len1: nat, len2: nat)         // ValueError: lengths must be equal
    | WrongNdim(arg: Arg, ndim: nat)               // ValueError: ndim must be 1
    | WrongCategoryCount(arg: Arg, unique: set<T>) // ValueError: not exactly two unique values

  datatype Result<+R, T> = Ok(value: R) | Err(error: Error<T>) {
    predicate IsFailure() { Err? }

    function PropagateFailure<U>(): Result<U, T>
      requires Err?
    {
      Err(error)
    }

    function Extract(): R
      requires Ok?
    {
      value
    }
  }

  /** Two one-dimensional ndarrays holding the same number of observations:
      what every association function needs of a pair of arguments. */
  predicate Paired<T>(v1: NdArray<T>, v2: NdArray<T>)
  {
    v1.Arr? && v2.Arr? && |v1.shape| == 1 && |v2.shape| == 1 && |v1.elems| == |v2.elems|
  }

  /** Two ndarrays that both have a length (neither is 0-d). */
  predicate Sized<T>(v1: NdArray<T>, v2: NdArray<T>)
  {
    v1.Arr? && v2.Arr? && |v1.shape| > 0 && |v2.shape| > 0
  }

  /** `check_variables`: type of v1, type of v2, the length of each (a 0-d
      array has none), equal lengths, ndim of v1, ndim of v2, in that order.
      The length comparison precedes the dimension checks, so two arrays of
      different lengths are always reported as a length mismatch. */
  function CheckVariables<T>(v1: NdArray<T>, v2: NdArray<T>): (r: Result<(), T>)
    ensures r.Ok? <==> Paired(v1, v2)
    ensures v1.Other? ==> r == Err(NotNdArray(V1, v1.typeName))
    ensures v1.Arr? && v2.Other? ==> r == Err(NotNdArray(V2, v2.typeName))
    ensures v1.Arr? && v2.Arr? && |v1.shape| == 0 ==> r == Err(Unsized(V1))
    ensures v1.Arr? && v2.Arr? && |v1.shape| > 0 && |v2.shape| == 0 ==> r == Err(Unsized(V2))
    ensures Sized(v1, v2) && v1.shape[0] != v2.shape[0] ==>
              r == Err(LengthMismatch(v1.shape[0], v2.shape[0]))
    ensures Sized(v1, v2) && v1.shape[0] == v2.shape[0] && |v1.shape| != 1 ==>
              r == Err(WrongNdim(V1, |v1.shape|))
    ensures Sized(v1, v2) && v1.shape[0] == v2.shape[0] && |v1.shape| == 1 && |v2.shape| != 1 ==>
              r == Err(WrongNdim(V2, |v2.shape|))
    ensures !(r.Err? && r.error.WrongCategoryCount?)
  {
    if v1.Other? then Err(NotNdArray(V1, v1.typeName))
    else if v2.Other? then Err(NotNdArray(V2, v2.typeName))
    else if |v1.shape| == 0 then Err(Unsized(V1))
    else if |v2.shape| == 0 then Err(Unsized(V2))
    else
      OneDimensionalLength(v1);
      OneDimensionalLength(v2);
      if v1.shape[0] != v2.shape[0] then Err(LengthMismatch(v1.shape[0], v2.shape[0]))
      else if |v1.shape| != 1 then Err(WrongNdim(V1, |v1.shape|))
      else if |v2.shape| != 1 then Err(WrongNdim(V2, |v2.shape|))
      else Ok(())
  }

  /** Two 1-D arrays of different lengths are rejected with the length
      error, whatever else is true of them. */
  lemma LengthMismatchRejected<T>(v1: NdArray<T>, v2: NdArray<T>)
    requires v1.Arr? && v2.Arr? && |v1.shape| == 1 && |v2.shape| == 1
    requires |v1.elems| != |v2.elems|
    ensures CheckVariables(v1, v2) == Err(LengthMismatch(|v1.elems|, |v2.elems|))
  {
    OneDimensionalLength(v1);
    OneDimensionalLength(v2);
  }

  /** Two arrays of the same length that are not both one-dimensional are
      rejected with the dimension error of the first argument that is not
      1-D, carrying its number of dimensions. */
  lemma NdimRejected<T>(v1: NdArray<T>, v2: NdArray<T>)
    requires Sized(v1, v2) && v1.shape[0] == v2.shape[0]
    requires |v1.shape| != 1 || |v2.shape| != 1
    ensures CheckVariables(v1, v2) ==
              if |v1.shape| != 1 then Err(WrongNdim(V1, |v1.shape|)) else Err(WrongNdim(V2, |v2.shape|))
    ensures CheckVariables(v1, v2).Err? && CheckVariables(v1, v2).error.WrongNdim?
  {
  }

  /** Swapping the arguments does not change whether the check passes; a
      length mismatch is reported with the two lengths swapped. */
  lemma CheckVariablesSymmetric<T>(v1: NdArray<T>, v2: NdArray<T>)
    ensures CheckVariables(v1, v2).Ok? <==> CheckVariables(v2, v1).Ok?
    ensures CheckVariables(v1, v2).Err? && CheckVariables(v1, v2).error.LengthMismatch? ==>
              var e := CheckVariables(v1, v2).error;
              CheckVariables(v2, v1) == Err(LengthMismatch(e.len2, e.len1))
  {
  }

  /** A vector with exactly two distinct values, stated without counting:
      two different values occur and nothing else does. */
  ghost predicate TwoValued<T>(s: seq<T>)
  {
    exists a, b :: a != b && a in s && b in s && forall x :: x in s ==> x == a || x == b
  }

  /** A vector whose every element is one of two different values, both of
      which occur, is two-valued. */
  lemma TwoValuedIntro<T>(s: seq<T>, a: T, b: T)
    requires a != b && a in s && b in s
    requires forall i :: 0 <= i < |s| ==> s[i] == a || s[i] == b
    ensures TwoValued(s)
  {
    forall x | x in s
      ensures x == a || x == b
    {
      var i :| 0 <= i < |s| && s[i] == x;
    }
    assert a != b && a in s && b in s && forall x :: x in s ==> x == a || x == b;
  }

  /** Counting distinct values and the two-values description agree. */
  lemma DistinctTwoIff<T>(s: seq<T>)
    ensures |Distinct(s)| == 2 <==> TwoValued(s)
  {
    var d := Distinct(s);
    if |d| == 2 {
      var a :| a in d;
      var rest := d - {a};
      assert |rest| == 1;
      var b :| b in rest;
      assert rest - {b} == {} by {
        assert |rest - {b}| == 0;
      }
      forall x | x in s
        ensures x == a || x == b
      {
        assert x in d;
        if x != a {
          assert x in rest;
        }
      }
      assert a != b && a in s && b in s;
    }
    if TwoValued(s) {
      var a, b :| a != b && a in s && b in s && forall x :: x in s ==> x == a || x == b;
      assert d == {a, b};
    }
  }

  /** `check_binary_categorical`: the shape check first, then the number of
      unique values of v1, then that of v2, each of which must be exactly
      two (the messages say "more than", but the test is `!= 2`). */
  function CheckBinaryCategorical<T(==)>(v1: NdArray<T>, v2: NdArray<T>): (r: Result<(), T>)
    ensures CheckVariables(v1, v2).Err? ==> r == CheckVariables(v1, v2)
    ensures r.Ok? <==> Paired(v1, v2) && TwoValued(v1.elems) && TwoValued(v2.elems)
    ensures Paired(v1, v2) && r.Err? ==> r.error.WrongCategoryCount?
    ensures r.Err? && r.error.WrongCategoryCount? ==>
              Paired(v1, v2)
              && (r.error.arg == V1 <==> !TwoValued(v1.elems))
              && (r.error.arg == V2 ==> !TwoValued(v2.elems))
              && r.error.unique == Distinct(if r.error.arg == V1 then v1.elems else v2.elems)
  {
    var _ :- CheckVariables(v1, v2);
    DistinctTwoIff(v1.elems);
    DistinctTwoIff(v2.elems);
    var unique1 := Distinct(v1.elems);
    if |unique1| != 2 then Err(WrongCategoryCount(V1, unique1))
    else
      var unique2 := Distinct(v2.elems);
      if |unique2| != 2 then Err(WrongCategoryCount(V2, unique2))
      else Ok(())
  }

  /** On a valid pair whose v1 is binary, a non-binary v2 is reported with
      its own distinct values. */
  lemma BinaryCheckSecond<T>(v1: NdArray<T>, v2: NdArray<T>)
    requires Paired(v1, v2)
    requires TwoValued(v1.elems) && !TwoValued(v2.elems)
    ensures CheckBinaryCategorical(v1, v2) == Err(WrongCategoryCount(V2, Distinct(v2.elems)))
  {
    DistinctTwoIff(v1.elems);
    DistinctTwoIff(v2.elems);
  }

  /** A constant vector (one distinct value) fails the binary check. */
  lemma ConstantRejected<T>(s: seq<T>)
    requires |s| > 0
    requires forall i :: 0 <= i < |s| ==> s[i] == s[0]
    ensures Distinct(s) == {s[0]}
    ensures !TwoValued(s)
  {
    assert Distinct(s) == {s[0]} by {
      forall x | x in Distinct(s)
        ensures x == s[0]
      {
        var i :| 0 <= i < |s| && s[i] == x;
      }
    }
    DistinctTwoIff(s);
  }

  /** A vector with three different values fails the binary check. */
  lemma ThreeValuesRejected<T>(s: seq<T>, i: nat, j: nat, k: nat)
    requires i < |s| && j < |s| && k < |s|
    requires s[i] != s[j] && s[j] != s[k] && s[i] != s[k]
    ensures |Distinct(s)| >= 3
    ensures !TwoValued(s)
  {
    var three := {s[i], s[j], s[k]};
    assert |three| == 3;
    assert three <= Distinct(s);
    SubsetCardinality(three, Distinct(s));
    DistinctTwoIff(s);
  }

  lemma {:induction false} SubsetCardinality<T>(a: set<T>, b: set<T>)
    requires a <= b
    ensures |a| <= |b|
  {
    if a != {} {
      var x :| x in a;
      SubsetCardinality(a - {x}, b - {x});
    }
  }

  /** The binary check on a valid pair fails on v1 before looking at v2:
      a non-binary v1 is reported even when v2 is not binary either. */
  lemma BinaryCheckOrder<T>(v1: NdArray<T>, v2: NdArray<T>)
    requires Paired(v1, v2)
    requires !TwoValued(v1.elems)
    ensures CheckBinaryCategorical(v1, v2) == Err(WrongCategoryCount(V1, Distinct(v1.elems)))
  {
    DistinctTwoIff(v1.elems);
  }
}
