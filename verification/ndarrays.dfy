/** The argument values the validators inspect: numpy arrays, and the few
    numpy operations (length, dimension count, unique values, basic slicing,
    element-wise arithmetic) that the association functions apply to them. */
module NdArrays {

  /** Any Python value passed where an ndarray is expected. An ndarray is
      known by its shape and its elements in row-major order; every other
      object (a list, a tuple, a scalar) is known only by its type name. */
  datatype Value<T> = Other(typeName: string) | Arr(shape: seq<nat>, elems: seq<T>)

  /** The number of elements an array of the given shape holds (1 for a 0-d array). */
  function Size(shape: seq<nat>): nat
  {
    if |shape| == 0 then 1 else shape[0] * Size(shape[1..])
  }

  /** An ndarray holds exactly as many elements as its shape says. */
  predicate WellShaped<T>(v: Value<T>)
  {
    v.Arr? ==> |v.elems| == Size(v.shape)
  }

  type NdArray<T> = v: Value<T> | WellShaped(v) witness Other("")

  /** A one-dimensional array is its own list of observations. */
  lemma OneDimensionalLength<T>(a: NdArray<T>)
    requires a.Arr?
    ensures |a.shape| == 1 ==> a.shape[0] == |a.elems|
  {
    if |a.shape| == 1 {
      assert Size(a.shape[1..]) == 1;
    }
  }

  /** The set of distinct values of a vector. `np.unique` returns it as a
      sorted array; the validators test its size and report its contents. */
  function Distinct<T(==)>(s: seq<T>): (d: set<T>)
    ensures |d| == 0 <==> |s| == 0
    ensures |d| <= |s|
  {
    DistinctBound(s);
    var d := set x | x in s;
    assert |s| > 0 ==> s[0] in s && s[0] in d && |d| > 0;
    d
  }

  lemma DistinctSnoc<T>(s: seq<T>, x: T)
    ensures Distinct(s + [x]) == Distinct(s) + {x}
  {
  }

  /** A vector cannot hold more distinct values than elements. */
  lemma {:induction false} DistinctBound<T>(s: seq<T>)
    ensures |set x | x in s| <= |s|
  {
    if |s| > 0 {
      var init := s[..|s| - 1];
      DistinctBound(init);
      assert s == init + [s[|s| - 1]];
      assert (set x | x in s) == (set x | x in init) + {s[|s| - 1]};
    }
  }

  /** Python's `s[1:]`: everything but the first element, empty for an empty vector. */
  function DropFirst<T>(s: seq<T>): (r: seq<T>)
    ensures |r| == if |s| == 0 then 0 else |s| - 1
    ensures forall i :: 0 <= i < |r| ==> r[i] == s[i + 1]
  {
    if |s| == 0 then [] else s[1..]
  }

  /** Python's `s[:-1]`: everything but the last element, empty for an empty vector. */
  function DropLast<T>(s: seq<T>): (r: seq<T>)
    ensures |r| == if |s| == 0 then 0 else |s| - 1
    ensures forall i :: 0 <= i < |r| ==> r[i] == s[i]
  {
    if |s| == 0 then [] else s[..|s| - 1]
  }

  /** numpy's element-wise `a - b` on two vectors of the same length, the
      only case that occurs where the association functions subtract. */
  function Minus(a: seq<real>, b: seq<real>): (r: seq<real>)
    requires |a| == |b|
    ensures |r| == |a|
    ensures forall i :: 0 <= i < |r| ==> r[i] + b[i] == a[i]
  {
    seq(|a|, i requires 0 <= i < |a| => a[i] - b[i])
  }
}
