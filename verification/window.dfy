/** The window of the chart: the period it starts from, and the slice of the
    matrix and of the axis from that period on. */
module Window {
  import opened Common
  import opened Normalisation

  /** 2020-03-01, the first day of a daily chart, in days since 1970-01-01. */
  const MarchFirst2020: int := 18322

  /** 2020-02-01 in days since 1970-01-01; its ISO week is the first week of a
      weekly chart. */
  const FebruaryFirst2020: int := 18293

  /** Whether `y` is a leap year of the Gregorian calendar. */
  predicate LeapYear(y: int) {
    y % 4 == 0 && (y % 100 != 0 || y % 400 == 0)
  }

  /** The day number (days since 1970-01-01) of the Gregorian date y-m-d:
      365 days a year, one more for each leap day passed, then the days of
      the months before `m` and the days before `d`. */
  function CivilDay(y: int, m: int, d: int): int
    requires 1 <= m <= 12 && 1 <= d <= 31
  {
    var leapDays := ((y - 1) / 4 - 1969 / 4) - ((y - 1) / 100 - 1969 / 100) + ((y - 1) / 400 - 1969 / 400);
    var monthStarts := [0, 31, 59, 90, 120, 151, 181, 212, 243, 273, 304, 334];
    365 * (y - 1970) + leapDays + monthStarts[m - 1] + (if m > 2 && LeapYear(y) then 1 else 0) + (d - 1)
  }

  /** The period the chart starts from; `week` is the ISO-week function. A
      daily chart starts on 2020-03-01, a weekly one at the week of
      2020-02-01. */
  function Cutoff(weekly: bool, week: int -> int): (r: int)
    ensures !weekly ==> r == CivilDay(2020, 3, 1)
    ensures weekly ==> r == week(CivilDay(2020, 2, 1))
  {
    if weekly then week(FebruaryFirst2020) else MarchFirst2020
  }

  /** The position of the first occurrence of `target`, if any. */
  function FirstIndexOf(axis: seq<int>, target: int): (r: Option<nat>)
    ensures r.None? <==> target !in axis
    ensures r.Some? ==> r.value < |axis| && axis[r.value] == target
    ensures r.Some? ==> forall k :: 0 <= k < r.value ==> axis[k] != target
  {
    if |axis| == 0 then None
    else if axis[0] == target then Some(0)
    else
      match FirstIndexOf(axis[1..], target)
      case None => None
      case Some(k) => Some(k + 1)
  }

  datatype WindowError = CutoffWeekMissing

  /** Where the chart starts. The search leaves the start unset when the
      cutoff is not on the axis; a daily chart then slices from an unset
      start, which keeps the whole axis, while a weekly chart then fails when
      it lists the weeks from the unset start. */
  function StartIndex(axis: seq<int>, weekly: bool, target: int): (r: Result<nat, WindowError>)
    ensures r.Err? <==> weekly && target !in axis
    ensures r.Ok? ==> r.value <= |axis|
    ensures r.Ok? && target in axis ==>
      r.value < |axis| && axis[r.value] == target && forall k :: 0 <= k < r.value ==> axis[k] != target
    ensures r.Ok? && target !in axis ==> r.value == 0
  {
    match FirstIndexOf(axis, target)
    case Some(i) => Ok(i)
    case None => if weekly then Err(CutoffWeekMissing) else Ok(0)
  }

  /** Swaps rows and columns of a matrix with `cols` columns. */
  function Transpose(m: Matrix, cols: nat): (t: Matrix)
    requires Rectangular(m, cols)
    ensures |t| == cols && Rectangular(t, |m|)
    ensures forall i, j :: 0 <= i < cols && 0 <= j < |m| ==> t[i][j] == m[j][i]
  {
    seq(cols, i requires 0 <= i < cols => seq(|m|, j requires 0 <= j < |m| => m[j][i]))
  }

  /** The script's column slice: transpose, drop the first `start` rows,
      transpose back. Every row keeps exactly its entries from column `start`
      on, so all rows stay of one length. */
  function DropColumns(m: Matrix, cols: nat, start: nat): (r: Matrix)
    requires Rectangular(m, cols) && start <= cols
    ensures |r| == |m| && Rectangular(r, cols - start)
    ensures forall j :: 0 <= j < |m| ==> r[j] == m[j][start..]
  {
    var t := Transpose(m, cols)[start..];
    var r := Transpose(t, |m|);
    assert forall j :: 0 <= j < |m| ==> r[j] == m[j][start..];
    r
  }

  /** Cutting columns off a matrix of shares keeps each remaining column as
      it was: with no negative counts, each adds up to 100 or is all zeros. */
  lemma WindowOfPercentages(ys: Matrix, cols: nat, start: nat)
    requires Rectangular(ys, cols) && start <= cols
    requires forall j, i :: 0 <= j < |ys| && 0 <= i < cols ==> 0.0 <= ys[j][i]
    ensures PercentColumns(DropColumns(Percentages(ys, cols), cols, start), cols - start)
  {
    var p := Percentages(ys, cols);
    var r := DropColumns(p, cols, start);
    forall k | 0 <= k < cols - start
      ensures ColumnTotal(r, k) == 100.0 || forall j :: 0 <= j < |r| ==> r[j][k] == 0.0
    {
      var i := start + k;
      assert Column(r, k) == Column(p, i);
      NormalisedColumn(ys, cols, i);
      ZeroTotalColumn(ys, cols, i);
    }
  }
}
