/** The analysis from the fetched records to the series of the stacked-area
    chart: select the records, lay out the time axis, bucket the records by
    age group and period, turn the counts into percentages if asked, and cut
    the chart at its start period. */
module Pipeline {
  import opened Common
  import opened Settings
  import opened Selection
  import opened Periods
  import opened AgeBuckets
  import opened Normalisation
  import opened Window

  datatype Failure =
    | NoRecordsSelected   // no record passes the filters: the date range has no ends
    | StartWeekMissing    // weekly chart whose axis lacks the week of 2020-02-01

  /** What the chart plots: one series per age group over the periods shown. */
  datatype AgeMix = AgeMix(groups: seq<string>, periods: seq<int>, series: Matrix)

  /** The count matrix of the selected records, before any windowing. */
  function CountMatrix(sel: seq<Record>, config: Config, week: Day -> Week): (m: seq<seq<nat>>)
    requires |sel| > 0
    ensures |m| == |AgeGroups(config.older)|
    ensures forall i :: 0 <= i < |m| ==> |m[i]| == |Axis(sel, config.weekly, week)|
  {
    Buckets(CellsOf(sel, config.weekly, week), AgeGroups(config.older), Axis(sel, config.weekly, week))
  }

  /** The values plotted before windowing: the counts as reals, or their
      shares of each period's total in percentage mode. */
  function Plotted(counts: seq<seq<nat>>, cols: nat, percentage: bool): (ys: Matrix)
    requires forall j :: 0 <= j < |counts| ==> |counts[j]| == cols
    ensures |ys| == |counts| && Rectangular(ys, cols)
  {
    if percentage then Percentages(AsReals(counts), cols) else AsReals(counts)
  }

  /** Cuts the chart at its start period. It fails exactly when a weekly
      chart's axis lacks the cutoff week. Otherwise it yields one series per
      age group; the periods shown are the tail of the axis that starts at
      the cutoff, or the whole axis of a daily chart whose days do not
      include the cutoff, and each series keeps exactly the columns of those
      periods. */
  function Cut(groups: seq<string>, axis: seq<int>, ys: Matrix, weekly: bool, cutoff: int): (r: Result<AgeMix, Failure>)
    requires |ys| == |groups| && Rectangular(ys, |axis|)
    ensures r.Err? <==> weekly && cutoff !in axis
    ensures r.Err? ==> r.error == StartWeekMissing
    ensures r.Ok? ==>
      && r.value.groups == groups
      && |r.value.series| == |groups|
      && Rectangular(r.value.series, |r.value.periods|)
      && |r.value.periods| <= |axis|
      && r.value.periods == axis[|axis| - |r.value.periods|..]
      && r.value.series == DropColumns(ys, |axis|, |axis| - |r.value.periods|)
    ensures r.Ok? && cutoff in axis ==>
      0 < |r.value.periods| && r.value.periods[0] == cutoff && cutoff !in axis[..|axis| - |r.value.periods|]
    ensures r.Ok? && cutoff !in axis ==> r.value.periods == axis
  {
    match StartIndex(axis, weekly, cutoff)
    case Err(_) => Err(StartWeekMissing)
    case Ok(start) => Ok(AgeMix(groups, axis[start..], DropColumns(ys, |axis|, start)))
  }

  /** The chart of a non-empty selection: its plotted values over its axis,
      cut at the start period. */
  function ChartOf(sel: seq<Record>, config: Config, week: Day -> Week): (r: Result<AgeMix, Failure>)
    requires |sel| > 0
    ensures r.Err? <==> config.weekly && Cutoff(config.weekly, week) !in Axis(sel, config.weekly, week)
    ensures r.Err? ==> r.error == StartWeekMissing
    ensures r.Ok? ==> r.value.groups == AgeGroups(config.older)
  {
    var axis := Axis(sel, config.weekly, week);
    Cut(AgeGroups(config.older), axis, Plotted(CountMatrix(sel, config, week), |axis|, config.percentage), config.weekly, Cutoff(config.weekly, week))
  }

  /** The whole analysis: select the records, then chart them. It fails
      for want of records exactly when no record passes the filters, since
      the date range then has no ends; otherwise it is the chart of the
      selection. */
  function Analyse(recs: seq<Record>, config: Config, week: Day -> Week): (r: Result<AgeMix, Failure>)
    ensures r == Err(NoRecordsSelected) <==> forall x :: x in recs ==> !Selected(x, config.county, config.deaths)
    ensures r.Ok? ==> r.value.groups == AgeGroups(config.older)
    ensures Select(recs, config.county, config.deaths) != [] ==> r == ChartOf(Select(recs, config.county, config.deaths), config, week)
  {
    var sel := Select(recs, config.county, config.deaths);
    if |sel| == 0 then
      forall x | x in recs
        ensures !Selected(x, config.county, config.deaths)
      {
        assert multiset(sel)[x] == 0;
      }
      Err(NoRecordsSelected)
    else
      var first := sel[0];
      assert first in sel && multiset(sel)[first] > 0;
      assert first in recs;
      ChartOf(sel, config, week)
  }

  /** Every selected record whose age group is a chart row is counted exactly
      once in the count matrix; records of other age groups are not counted. */
  lemma CountMatrixConservesRecords(sel: seq<Record>, config: Config, week: Day -> Week)
    requires |sel| > 0
    ensures Total(CountMatrix(sel, config, week)) == ListedRecords(sel, AgeGroups(config.older))
  {
    var axis := Axis(sel, config.weekly, week);
    IncreasingIsDistinct(axis);
    BucketsConserveRecords(sel, AgeGroups(config.older), axis, config.weekly, week);
  }

  /** Cutting keeps the periods of an ascending axis in ascending order, and
      those of an axis of consecutive days consecutive. */
  lemma CutKeepsOrder(groups: seq<string>, axis: seq<int>, ys: Matrix, weekly: bool, cutoff: int)
    requires |ys| == |groups| && Rectangular(ys, |axis|)
    requires StrictlyIncreasing(axis)
    ensures var r := Cut(groups, axis, ys, weekly, cutoff);
      r.Ok? ==> StrictlyIncreasing(r.value.periods) && (Consecutive(axis) ==> Consecutive(r.value.periods))
  {
    var r := Cut(groups, axis, ys, weekly, cutoff);
    if r.Ok? {
      var start := |axis| - |r.value.periods|;
      TailOfIncreasing(axis, start);
      if Consecutive(axis) {
        TailOfConsecutive(axis, start);
      }
    }
  }

  /** The periods shown are in ascending order without repeats; in a daily
      chart they are consecutive days. */
  lemma PeriodsAscend(sel: seq<Record>, config: Config, week: Day -> Week)
    requires |sel| > 0
    ensures var r := ChartOf(sel, config, week);
      r.Ok? ==> StrictlyIncreasing(r.value.periods) && (!config.weekly ==> Consecutive(r.value.periods))
  {
    var axis := Axis(sel, config.weekly, week);
    var ys := Plotted(CountMatrix(sel, config, week), |axis|, config.percentage);
    CutKeepsOrder(AgeGroups(config.older), axis, ys, config.weekly, Cutoff(config.weekly, week));
  }

  lemma TailOfIncreasing(s: seq<int>, start: nat)
    requires StrictlyIncreasing(s) && start <= |s|
    ensures StrictlyIncreasing(s[start..])
  {
    assert forall i :: 0 <= i < |s| - start ==> s[start..][i] == s[start + i];
  }

  lemma TailOfConsecutive(s: seq<int>, start: nat)
    requires start <= |s| && Consecutive(s)
    ensures Consecutive(s[start..])
  {
  }

  /** Cutting a matrix of counts keeps, for each period shown, the count of
      that period on the axis. */
  lemma CutOfCountMatrix(groups: seq<string>, axis: seq<int>, counts: seq<seq<nat>>, weekly: bool, cutoff: int)
    requires |counts| == |groups| && forall j :: 0 <= j < |counts| ==> |counts[j]| == |axis|
    ensures var r := Cut(groups, axis, Plotted(counts, |axis|, false), weekly, cutoff);
      r.Ok? ==> forall j, k :: 0 <= j < |groups| && 0 <= k < |r.value.periods| ==>
        var i := |axis| - |r.value.periods| + k;
        r.value.periods[k] == axis[i] && r.value.series[j][k] == counts[j][i] as real
  {
  }

  /** Cutting a bucket matrix: entry (j, k) of the chart is the number of
      cells of group j in the k-th period shown. */
  lemma CutOfCounts(cs: seq<Cell>, groups: seq<string>, axis: seq<int>, weekly: bool, cutoff: int)
    ensures var r := Cut(groups, axis, Plotted(Buckets(cs, groups, axis), |axis|, false), weekly, cutoff);
      r.Ok? ==> forall j, k :: 0 <= j < |groups| && 0 <= k < |r.value.periods| ==>
        r.value.series[j][k] == multiset(cs)[Cell(groups[j], r.value.periods[k])] as real
  {
    var counts := Buckets(cs, groups, axis);
    CutOfCountMatrix(groups, axis, counts, weekly, cutoff);
    forall j, i | 0 <= j < |groups| && 0 <= i < |axis|
      ensures counts[j][i] == multiset(cs)[Cell(groups[j], axis[i])]
    {
      assert counts[j] == Row(cs, groups[j], axis);
    }
  }

  /** In a chart of counts every plotted entry is the number of selected
      records of that row's age group in that column's period. */
  lemma CountChartEntries(sel: seq<Record>, config: Config, week: Day -> Week)
    requires |sel| > 0 && !config.percentage
    ensures var r := ChartOf(sel, config, week);
      r.Ok? ==> forall j, k :: 0 <= j < |r.value.groups| && 0 <= k < |r.value.periods| ==>
        r.value.series[j][k] == multiset(CellsOf(sel, config.weekly, week))[Cell(r.value.groups[j], r.value.periods[k])] as real
  {
    CutOfCounts(CellsOf(sel, config.weekly, week), AgeGroups(config.older), Axis(sel, config.weekly, week), config.weekly, Cutoff(config.weekly, week));
  }

  /** Cutting the shares of a count matrix leaves every period shown adding
      up to 100, or with every entry 0. */
  lemma CutOfPercentages(groups: seq<string>, axis: seq<int>, counts: seq<seq<nat>>, weekly: bool, cutoff: int)
    requires |counts| == |groups| && forall j :: 0 <= j < |counts| ==> |counts[j]| == |axis|
    ensures var r := Cut(groups, axis, Plotted(counts, |axis|, true), weekly, cutoff);
      r.Ok? ==> PercentColumns(r.value.series, |r.value.periods|)
  {
    var ys := AsReals(counts);
    var shares := Plotted(counts, |axis|, true);
    assert shares == Percentages(ys, |axis|);
    var r := Cut(groups, axis, shares, weekly, cutoff);
    if r.Ok? {
      var start := |axis| - |r.value.periods|;
      assert r.value.series == DropColumns(Percentages(ys, |axis|), |axis|, start);
      AsRealsNonNegative(counts);
      WindowOfPercentages(ys, |axis|, start);
    }
  }

  /** In a percentage chart every period shown adds up to 100 over the age
      groups, or has every entry 0. */
  lemma PercentageColumnsAddUp(sel: seq<Record>, config: Config, week: Day -> Week)
    requires |sel| > 0 && config.percentage
    ensures var r := ChartOf(sel, config, week);
      r.Ok? ==> PercentColumns(r.value.series, |r.value.periods|)
  {
    CutOfPercentages(AgeGroups(config.older), Axis(sel, config.weekly, week), CountMatrix(sel, config, week), config.weekly, Cutoff(config.weekly, week));
  }
}
