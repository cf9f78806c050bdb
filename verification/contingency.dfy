/** The contingency table `cramers_v` builds with `pandas.crosstab(v1, v2)`,
    abstracted as pair counting: one row per distinct value of v1, one
    column per distinct value of v2, and in each cell the number of
    positions where v1 holds the row label and v2 the column label.
    pandas orders the labels by sorting; here they keep the order of first
    occurrence, which changes neither the shape nor any count. */
module Contingency {
  import opened NdArrays

  predicate NoDups<T(==)>(s: seq<T>)
  {
    forall i, j :: 0 <= i < j < |s| ==> s[i] != s[j]
  }

  /** How many times `x` occurs in `s`. */
  function Occ<T(==)>(s: seq<T>, x: T): (n: nat)
    ensures n <= |s|
    ensures n > 0 <==> x in s
  {
    if |s| == 0 then 0
    else Occ(s[..|s| - 1], x) + (if s[|s| - 1] == x then 1 else 0)
  }

  /** The distinct values of `s`, each once, in order of first occurrence. */
  function Labels<T(==)>(s: seq<T>): (u: seq<T>)
    ensures NoDups(u)
    ensures Distinct(u) == Distinct(s)
  {
    if |s| == 0 then []
    else
      var u := Labels(s[..|s| - 1]);
      var x := s[|s| - 1];
      assert s == s[..|s| - 1] + [x];
      DistinctSnoc(s[..|s| - 1], x);
      DistinctSnoc(u, x);
      if x in u then u else u + [x]
  }

  /** The paired observations `(v1[i], v2[i])`. */
  function Zip<T>(xs: seq<T>, ys: seq<T>): (ps: seq<(T, T)>)
    requires |xs| == |ys|
    ensures |ps| == |xs|
    ensures forall i :: 0 <= i < |ps| ==> ps[i].0 == xs[i] && ps[i].1 == ys[i]
  {
    seq(|xs|, i requires 0 <= i < |xs| => (xs[i], ys[i]))
  }

  datatype Table<T> = Table(rows: seq<T>, cols: seq<T>, counts: seq<seq<nat>>)

  /** The counts of row label `r`, one per column label. */
  function RowCounts<T(==)>(ps: seq<(T, T)>, r: T, cols: seq<T>): (row: seq<nat>)
    ensures |row| == |cols|
  {
    if |cols| == 0 then []
    else RowCounts(ps, r, cols[..|cols| - 1]) + [Occ(ps, (r, cols[|cols| - 1]))]
  }

  /** The counts of every row label, one row per label. */
  function Cells<T(==)>(ps: seq<(T, T)>, rows: seq<T>, cols: seq<T>): (c: seq<seq<nat>>)
    ensures |c| == |rows|
  {
    if |rows| == 0 then []
    else Cells(ps, rows[..|rows| - 1], cols) + [RowCounts(ps, rows[|rows| - 1], cols)]
  }

  /** `pandas.crosstab(v1, v2).values` together with its row and column
      labels: each distinct value of v1 labels exactly one row, each distinct
      value of v2 exactly one column, and there is one row of counts per row
      label. */
  function Crosstab<T(==)>(xs: seq<T>, ys: seq<T>): (t: Table<T>)
    requires |xs| == |ys|
    ensures NoDups(t.rows) && Distinct(t.rows) == Distinct(xs)
    ensures NoDups(t.cols) && Distinct(t.cols) == Distinct(ys)
    ensures |t.counts| == |t.rows|
  {
    var rows := Labels(xs);
    var cols := Labels(ys);
    Table(rows, cols, Cells(Zip(xs, ys), rows, cols))
  }

  function Sum(s: seq<nat>): nat
  {
    if |s| == 0 then 0 else Sum(s[..|s| - 1]) + s[|s| - 1]
  }

  /** `ct.sum().sum()`: the sum of all cells. */
  function Total(c: seq<seq<nat>>): nat
  {
    if |c| == 0 then 0 else Total(c[..|c| - 1]) + Sum(c[|c| - 1])
  }

  /** The sum, over a list of keys, of the occurrences of each key in `s`. */
  function SumOcc<T(==)>(s: seq<T>, keys: seq<T>): nat
  {
    if |keys| == 0 then 0 else SumOcc(s, keys[..|keys| - 1]) + Occ(s, keys[|keys| - 1])
  }

  /** The first components of the pairs. */
  function Firsts<T>(ps: seq<(T, T)>): (xs: seq<T>)
    ensures |xs| == |ps|
    ensures forall i :: 0 <= i < |ps| ==> xs[i] == ps[i].0
  {
    seq(|ps|, i requires 0 <= i < |ps| => ps[i].0)
  }

  /** The second components of the pairs whose first component is `r`. */
  function Partners<T(==)>(ps: seq<(T, T)>, r: T): (m: seq<T>)
    ensures forall j :: 0 <= j < |m| ==> (r, m[j]) in ps
  {
    if |ps| == 0 then []
    else
      var m := Partners(ps[..|ps| - 1], r);
      var p := ps[|ps| - 1];
      if p.0 == r then m + [p.1] else m
  }

  lemma OccSnoc<T>(s: seq<T>, x: T, y: T)
    ensures Occ(s + [x], y) == Occ(s, y) + (if x == y then 1 else 0)
  {
    assert (s + [x])[..|s|] == s;
  }

  /** Appending one element to `s` adds one to the key sum exactly when the
      element is one of the (pairwise different) keys. */
  lemma {:induction false} SumOccSnoc<T>(s: seq<T>, x: T, keys: seq<T>)
    requires NoDups(keys)
    ensures SumOcc(s + [x], keys) == SumOcc(s, keys) + (if x in keys then 1 else 0)
  {
    if |keys| > 0 {
      var ks := keys[..|keys| - 1];
      var k := keys[|keys| - 1];
      assert keys == ks + [k];
      SumOccSnoc(s, x, ks);
      OccSnoc(s, k, x);
      OccSnoc(s, x, k);
      assert x in keys <==> x in ks || x == k;
      assert k !in ks;
    }
  }

  /** Counting every element of `s` under pairwise different keys that cover
      all of them counts each element exactly once. */
  lemma {:induction false} SumOccCovers<T>(s: seq<T>, keys: seq<T>)
    requires NoDups(keys)
    requires forall i :: 0 <= i < |s| ==> s[i] in keys
    ensures SumOcc(s, keys) == |s|
  {
    if |s| == 0 {
      SumOccEmpty(s, keys);
    } else {
      var init := s[..|s| - 1];
      assert s == init + [s[|s| - 1]];
      SumOccCovers(init, keys);
      SumOccSnoc(init, s[|s| - 1], keys);
    }
  }

  lemma {:induction false} SumOccEmpty<T>(s: seq<T>, keys: seq<T>)
    requires |s| == 0
    ensures SumOcc(s, keys) == 0
  {
    if |keys| > 0 {
      SumOccEmpty(s, keys[..|keys| - 1]);
    }
  }

  /** The count of cell `(r, c)` is the count of `c` among the partners of `r`. */
  lemma {:induction false} OccPair<T>(ps: seq<(T, T)>, r: T, c: T)
    ensures Occ(ps, (r, c)) == Occ(Partners(ps, r), c)
  {
    if |ps| > 0 {
      var init := ps[..|ps| - 1];
      OccPair(init, r, c);
      var p := ps[|ps| - 1];
      if p.0 == r {
        OccSnoc(Partners(init, r), p.1, c);
      }
    }
  }

  /** Row label `r` has as many partners as it has occurrences. */
  lemma {:induction false} PartnersCount<T>(ps: seq<(T, T)>, r: T)
    ensures |Partners(ps, r)| == Occ(Firsts(ps), r)
  {
    if |ps| > 0 {
      var init := ps[..|ps| - 1];
      PartnersCount(init, r);
      assert Firsts(ps)[..|ps| - 1] == Firsts(init);
    }
  }

  /** A row of the table adds up to the number of partners of its label. */
  lemma {:induction false} RowSum<T>(ps: seq<(T, T)>, r: T, cols: seq<T>)
    ensures Sum(RowCounts(ps, r, cols)) == SumOcc(Partners(ps, r), cols)
  {
    if |cols| > 0 {
      var init := cols[..|cols| - 1];
      var row := RowCounts(ps, r, cols);
      RowSum(ps, r, init);
      assert row[..|row| - 1] == RowCounts(ps, r, init);
      OccPair(ps, r, cols[|cols| - 1]);
    }
  }

  /** When the column labels cover every second component, the whole table
      adds up to the number of occurrences of its row labels. */
  lemma {:induction false} CellsTotal<T>(ps: seq<(T, T)>, rows: seq<T>, cols: seq<T>)
    requires NoDups(cols)
    requires forall i :: 0 <= i < |ps| ==> ps[i].1 in cols
    ensures Total(Cells(ps, rows, cols)) == SumOcc(Firsts(ps), rows)
  {
    if |rows| > 0 {
      var init := rows[..|rows| - 1];
      var r := rows[|rows| - 1];
      var c := Cells(ps, rows, cols);
      CellsTotal(ps, init, cols);
      assert c[..|c| - 1] == Cells(ps, init, cols);
      RowSum(ps, r, cols);
      var m := Partners(ps, r);
      forall j | 0 <= j < |m|
        ensures m[j] in cols
      {
        var i :| 0 <= i < |ps| && ps[i] == (r, m[j]);
      }
      SumOccCovers(m, cols);
      PartnersCount(ps, r);
    }
  }

  /** The table's grand total is the number of paired observations. */
  lemma CrosstabTotal<T>(xs: seq<T>, ys: seq<T>)
    requires |xs| == |ys|
    ensures Total(Crosstab(xs, ys).counts) == |xs|
  {
    var ps := Zip(xs, ys);
    var rows := Labels(xs);
    var cols := Labels(ys);
    forall i | 0 <= i < |xs|
      ensures xs[i] in rows && ps[i].1 in cols
    {
      assert xs[i] in Distinct(xs) && ys[i] in Distinct(ys);
    }
    CellsTotal(ps, rows, cols);
    assert Firsts(ps) == xs;
    SumOccCovers(xs, rows);
  }

  /** A list without repeats has as many distinct values as elements. */
  lemma {:induction false} NoDupsDistinct<T>(u: seq<T>)
    requires NoDups(u)
    ensures |Distinct(u)| == |u|
  {
    if |u| > 0 {
      var init := u[..|u| - 1];
      NoDupsDistinct(init);
      assert Distinct(u) == Distinct(init) + {u[|u| - 1]};
      assert u[|u| - 1] !in Distinct(init);
    }
  }

  /** The table has one row per distinct value of v1 and one column per
      distinct value of v2. */
  lemma CrosstabShape<T>(xs: seq<T>, ys: seq<T>)
    requires |xs| == |ys|
    ensures |Crosstab(xs, ys).rows| == |Crosstab(xs, ys).counts| == |Distinct(xs)|
    ensures |Crosstab(xs, ys).cols| == |Distinct(ys)|
  {
    var rows := Labels(xs);
    var cols := Labels(ys);
    NoDupsDistinct(rows);
    NoDupsDistinct(cols);
    assert Distinct(rows) == Distinct(xs);
    assert Distinct(cols) == Distinct(ys);
  }

  lemma {:induction false} RowCountsAt<T>(ps: seq<(T, T)>, r: T, cols: seq<T>, j: nat)
    requires j < |cols|
    ensures RowCounts(ps, r, cols)[j] == Occ(ps, (r, cols[j]))
  {
    var init := cols[..|cols| - 1];
    if j < |init| {
      RowCountsAt(ps, r, init, j);
    }
  }

  lemma {:induction false} CellsAt<T>(ps: seq<(T, T)>, rows: seq<T>, cols: seq<T>, i: nat)
    requires i < |rows|
    ensures Cells(ps, rows, cols)[i] == RowCounts(ps, rows[i], cols)
  {
    var init := rows[..|rows| - 1];
    if i < |init| {
      CellsAt(ps, init, cols, i);
    }
  }

  /** Cell `(i, j)` counts the positions holding the i-th label in v1 and
      the j-th label in v2 together. */
  lemma CrosstabCell<T>(xs: seq<T>, ys: seq<T>, i: nat, j: nat)
    requires |xs| == |ys|
    requires i < |Crosstab(xs, ys).rows| && j < |Crosstab(xs, ys).cols|
    ensures |Crosstab(xs, ys).counts[i]| == |Crosstab(xs, ys).cols|
    ensures var t := Crosstab(xs, ys);
            t.counts[i][j] == Occ(Zip(xs, ys), (t.rows[i], t.cols[j]))
  {
    var t := Crosstab(xs, ys);
    CellsAt(Zip(xs, ys), t.rows, t.cols, i);
    RowCountsAt(Zip(xs, ys), t.rows[i], t.cols, j);
  }
}
