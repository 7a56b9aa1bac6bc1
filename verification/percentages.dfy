/** Conversion of the count matrix to percentages of each period's total,
    over exact reals (the script uses floating point). */
module Normalisation {
  import opened Common

  /** A matrix of reals as a sequence of rows. */
  type Matrix = seq<seq<real>>

  /** Every row has `cols` entries. */
  predicate Rectangular(m: Matrix, cols: nat) {
    forall j :: 0 <= j < |m| ==> |m[j]| == cols
  }

  /** The count matrix as reals (`np.array(..., dtype=float)`). */
  function AsReals(m: seq<seq<nat>>): (r: Matrix)
    ensures |r| == |m|
    ensures forall j :: 0 <= j < |m| ==> |r[j]| == |m[j]|
  {
    seq(|m|, j requires 0 <= j < |m| => seq(|m[j]|, i requires 0 <= i < |m[j]| => m[j][i] as real))
  }

  /** Column `i`, top to bottom. */
  function Column(m: Matrix, i: nat): seq<real>
    requires forall j :: 0 <= j < |m| ==> i < |m[j]|
  {
    seq(|m|, j requires 0 <= j < |m| => m[j][i])
  }

  /** Sum of a sequence, added from the first element to the last. */
  function SumReals(s: seq<real>): real {
    if |s| == 0 then 0.0 else SumReals(s[..|s| - 1]) + s[|s| - 1]
  }

  function ColumnTotal(m: Matrix, i: nat): real
    requires forall j :: 0 <= j < |m| ==> i < |m[j]|
  {
    SumReals(Column(m, i))
  }

  /** Entry (j, i) as a percentage of column i's total; a column whose total
      is zero keeps its entries. */
  function Share(m: Matrix, j: nat, i: nat): real
    requires j < |m|
    requires forall k :: 0 <= k < |m| ==> i < |m[k]|
  {
    var total := ColumnTotal(m, i);
    if total == 0.0 then m[j][i] else 100.0 * m[j][i] / total
  }

  /** Every column adds up to 100, or is all zeros. */
  predicate PercentColumns(m: Matrix, cols: nat) {
    Rectangular(m, cols) &&
    forall i :: 0 <= i < cols ==>
      ColumnTotal(m, i) == 100.0 || forall j :: 0 <= j < |m| ==> m[j][i] == 0.0
  }

  /** Every entry replaced by its share of its column's total. */
  function Percentages(m: Matrix, cols: nat): (r: Matrix)
    requires Rectangular(m, cols)
    ensures |r| == |m| && Rectangular(r, cols)
  {
    seq(|m|, j requires 0 <= j < |m| => seq(cols, i requires 0 <= i < cols => Share(m, j, i)))
  }

  /** Scaling every element scales the sum. */
  lemma {:induction false} SumScaled(s: seq<real>, t: seq<real>, k: real)
    requires |t| == |s|
    requires forall j :: 0 <= j < |s| ==> t[j] == k * s[j]
    ensures SumReals(t) == k * SumReals(s)
    decreases |s|
  {
    if |s| > 0 {
      SumScaled(s[..|s| - 1], t[..|t| - 1], k);
    }
  }

  /** Normalising a column: if its total is not zero, each entry becomes
      100 times the entry over the total and the column then adds up to 100;
      if its total is zero the column is left as it was. */
  lemma NormalisedColumn(m: Matrix, cols: nat, i: nat)
    requires Rectangular(m, cols) && i < cols
    ensures ColumnTotal(m, i) != 0.0 ==>
      forall j :: 0 <= j < |m| ==> Percentages(m, cols)[j][i] == 100.0 * m[j][i] / ColumnTotal(m, i)
    ensures ColumnTotal(m, i) != 0.0 ==> ColumnTotal(Percentages(m, cols), i) == 100.0
    ensures ColumnTotal(m, i) == 0.0 ==> Column(Percentages(m, cols), i) == Column(m, i)
  {
    var r := Percentages(m, cols);
    var total := ColumnTotal(m, i);
    if total != 0.0 {
      var k := 100.0 / total;
      forall j | 0 <= j < |m|
        ensures Column(r, i)[j] == k * Column(m, i)[j]
      {
        DivideThenScale(m[j][i], total);
      }
      SumScaled(Column(m, i), Column(r, i), k);
      DivideThenScale(total, total);
    }
  }

  /** With no negative entries, every share lies between 0 and 100. */
  lemma SharesBetweenZeroAndHundred(m: Matrix, cols: nat, i: nat)
    requires Rectangular(m, cols) && i < cols
    requires forall j :: 0 <= j < |m| ==> 0.0 <= m[j][i]
    ensures ColumnTotal(m, i) != 0.0 ==>
      forall j :: 0 <= j < |m| ==> 0.0 <= Percentages(m, cols)[j][i] <= 100.0
  {
    var total := ColumnTotal(m, i);
    NonNegativeSum(Column(m, i));
    if total != 0.0 {
      forall j | 0 <= j < |m|
        ensures 0.0 <= Percentages(m, cols)[j][i] <= 100.0
      {
        EntryAtMostSum(Column(m, i), j);
        ShareOfWhole(m[j][i], total);
      }
    }
  }

  lemma DivideThenScale(x: real, total: real)
    requires total != 0.0
    ensures 100.0 * x / total == (100.0 / total) * x
  {
  }

  /** A part of a positive whole is between 0 and 100 percent of it. */
  lemma ShareOfWhole(part: real, whole: real)
    requires 0.0 <= part <= whole && whole != 0.0
    ensures 0.0 <= 100.0 * part / whole <= 100.0
  {
  }

  lemma {:induction false} EntryAtMostSum(s: seq<real>, j: nat)
    requires j < |s|
    requires forall k :: 0 <= k < |s| ==> 0.0 <= s[k]
    ensures 0.0 <= s[j] <= SumReals(s)
    decreases |s|
  {
    NonNegativeSum(s[..|s| - 1]);
    if j < |s| - 1 {
      EntryAtMostSum(s[..|s| - 1], j);
    }
  }

  lemma {:induction false} NonNegativeSum(s: seq<real>)
    requires forall k :: 0 <= k < |s| ==> 0.0 <= s[k]
    ensures 0.0 <= SumReals(s)
    decreases |s|
  {
    if |s| > 0 {
      NonNegativeSum(s[..|s| - 1]);
    }
  }

  /** Normalises the matrix in place, as the script does: for each column,
      add up its entries from the top, and if the total is not zero, replace
      each entry of the column by 100 times the entry over the total. The
      result is the matrix of shares. */
  method NormaliseInPlace(ys: Matrix) returns (zs: Matrix)
    requires |ys| > 0 && Rectangular(ys, |ys[0]|)
    ensures zs == Percentages(ys, |ys[0]|)
  {
    var cols := |ys[0]|;
    zs := ys;
    for i := 0 to cols
      invariant |zs| == |ys| && Rectangular(zs, cols)
      invariant forall j, k :: 0 <= j < |ys| && 0 <= k < i ==> zs[j][k] == Share(ys, j, k)
      invariant forall j, k :: 0 <= j < |ys| && i <= k < cols ==> zs[j][k] == ys[j][k]
    {
      var total := 0.0;
      for j := 0 to |zs|
        invariant total == SumReals(Column(zs, i)[..j])
      {
        assert Column(zs, i)[..j + 1][..j] == Column(zs, i)[..j];
        total := total + zs[j][i];
      }
      assert Column(zs, i)[..|zs|] == Column(zs, i) == Column(ys, i);
      if total != 0.0 {
        ghost var before := zs;
        for j := 0 to |zs|
          invariant |zs| == |ys| && Rectangular(zs, cols)
          invariant forall l :: 0 <= l < j ==> zs[l][i] == 100.0 * ys[l][i] / total
          invariant forall l, k :: 0 <= l < |zs| && 0 <= k < cols && (k != i || j <= l) ==> zs[l][k] == before[l][k]
        {
          zs := zs[j := zs[j][i := 100.0 * zs[j][i] / total]];
        }
      }
    }
    forall j | 0 <= j < |ys|
      ensures zs[j] == Percentages(ys, cols)[j]
    {
    }
  }

  /** A column of non-negative entries that adds up to zero is all zeros. */
  lemma ZeroTotalColumn(m: Matrix, cols: nat, i: nat)
    requires Rectangular(m, cols) && i < cols
    requires forall j :: 0 <= j < |m| ==> 0.0 <= m[j][i]
    ensures ColumnTotal(m, i) == 0.0 ==> forall j :: 0 <= j < |m| ==> m[j][i] == 0.0
  {
    forall j | 0 <= j < |m|
      ensures m[j][i] <= ColumnTotal(m, i)
    {
      EntryAtMostSum(Column(m, i), j);
    }
  }

  lemma AsRealsNonNegative(m: seq<seq<nat>>)
    ensures forall j, i :: 0 <= j < |m| && 0 <= i < |m[j]| ==> 0.0 <= AsReals(m)[j][i]
  {
  }
}
