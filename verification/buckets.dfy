/** The age-group by period count matrix the chart is drawn from. */
module AgeBuckets {
  import opened Common
  import opened Selection
  import opened Periods

  /** Where a record is counted: its age group and its period. */
  datatype Cell = Cell(group: string, period: int)

  /** The cell of each record, in record order. */
  function CellsOf(recs: seq<Record>, weekly: bool, week: Day -> Week): seq<Cell> {
    seq(|recs|, i requires 0 <= i < |recs| => Cell(recs[i].ageGroup, PeriodOf(recs[i], weekly, week)))
  }

  /** The bucket matrix: one row per age group, one column per period of the
      axis, and in each entry the number of cells of that group and period. */
  function Buckets(cs: seq<Cell>, groups: seq<string>, axis: seq<int>): (m: seq<seq<nat>>)
    ensures |m| == |groups|
    ensures forall i :: 0 <= i < |m| ==> |m[i]| == |axis|
  {
    seq(|groups|, i requires 0 <= i < |groups| => Row(cs, groups[i], axis))
  }

  function Row(cs: seq<Cell>, group: string, axis: seq<int>): seq<nat> {
    seq(|axis|, j requires 0 <= j < |axis| => multiset(cs)[Cell(group, axis[j])])
  }

  /** Counts the cells of `ofAge`, which all belong to age group `group`, that
      fall in period `p`. */
  method CountInPeriod(ofAge: seq<Cell>, group: string, p: int) returns (total: nat)
    requires forall c :: c in ofAge ==> c.group == group
    ensures total == multiset(ofAge)[Cell(group, p)]
  {
    total := 0;
    for t := 0 to |ofAge|
      invariant total == multiset(ofAge[..t])[Cell(group, p)]
    {
      assert ofAge[..t + 1] == ofAge[..t] + [ofAge[t]];
      assert ofAge[t] in ofAge;
      if ofAge[t].period == p {
        total := total + 1;
      }
    }
    assert ofAge[..|ofAge|] == ofAge;
  }

  /** One row of the bucket matrix, built the way the script does: select
      the cells of the age group, then count them period by period. Entry `j`
      is the number of cells of that group in period `axis[j]`. */
  method CountRow(cs: seq<Cell>, group: string, axis: seq<int>) returns (counts: seq<nat>)
    ensures |counts| == |axis|
    ensures forall j :: 0 <= j < |axis| ==> counts[j] == multiset(cs)[Cell(group, axis[j])]
  {
    var ofAge := Filter(cs, (c: Cell) => c.group == group);
    assert forall p :: multiset(ofAge)[Cell(group, p)] == multiset(cs)[Cell(group, p)];
    counts := [];
    for j := 0 to |axis|
      invariant |counts| == j
      invariant forall l :: 0 <= l < j ==> counts[l] == multiset(cs)[Cell(group, axis[l])]
    {
      var total := CountInPeriod(ofAge, group, axis[j]);
      counts := counts + [total];
    }
  }

  /** Builds the bucket matrix row by row, one row per age group in order.
      Each entry is the number of cells with that age group and that period. */
  method CreateAgeBuckets(cs: seq<Cell>, groups: seq<string>, axis: seq<int>) returns (m: seq<seq<nat>>)
    ensures |m| == |groups|
    ensures forall i :: 0 <= i < |groups| ==> |m[i]| == |axis|
    ensures forall i, j :: 0 <= i < |groups| && 0 <= j < |axis| ==>
      m[i][j] == multiset(cs)[Cell(groups[i], axis[j])]
    ensures m == Buckets(cs, groups, axis)
  {
    m := [];
    for i := 0 to |groups|
      invariant |m| == i
      invariant forall k :: 0 <= k < i ==> m[k] == Row(cs, groups[k], axis)
    {
      var counts := CountRow(cs, groups[i], axis);
      m := m + [counts];
    }
  }

  /** Number of occurrences of `c` in `cs`. */
  function Occurrences(cs: seq<Cell>, c: Cell): nat {
    if |cs| == 0 then 0 else (if cs[0] == c then 1 else 0) + Occurrences(cs[1..], c)
  }

  lemma {:induction false} OccurrencesAreMultiplicity(cs: seq<Cell>, c: Cell)
    ensures Occurrences(cs, c) == multiset(cs)[c]
    decreases |cs|
  {
    if |cs| > 0 {
      OccurrencesAreMultiplicity(cs[1..], c);
      assert cs == [cs[0]] + cs[1..];
    }
  }

  /** Number of cells whose group is among `groups` and whose period is on `axis`. */
  function CountIn(cs: seq<Cell>, groups: seq<string>, axis: seq<int>): nat {
    if |cs| == 0 then 0
    else (if cs[0].group in groups && cs[0].period in axis then 1 else 0) + CountIn(cs[1..], groups, axis)
  }

  /** Number of cells whose group is among `groups`. */
  function CountListed(cs: seq<Cell>, groups: seq<string>): nat {
    if |cs| == 0 then 0
    else (if cs[0].group in groups then 1 else 0) + CountListed(cs[1..], groups)
  }

  lemma {:induction false} SplitFirstPeriod(cs: seq<Cell>, group: string, a: int, rest: seq<int>)
    requires a !in rest
    ensures CountIn(cs, [group], [a] + rest) == Occurrences(cs, Cell(group, a)) + CountIn(cs, [group], rest)
    decreases |cs|
  {
    if |cs| > 0 {
      SplitFirstPeriod(cs[1..], group, a, rest);
    }
  }

  lemma {:induction false} SplitFirstGroup(cs: seq<Cell>, group: string, rest: seq<string>, axis: seq<int>)
    requires group !in rest
    ensures CountIn(cs, [group] + rest, axis) == CountIn(cs, [group], axis) + CountIn(cs, rest, axis)
    decreases |cs|
  {
    if |cs| > 0 {
      SplitFirstGroup(cs[1..], group, rest, axis);
    }
  }

  /** A row adds up to the number of that group's cells whose period is on the axis. */
  lemma {:induction false} RowSum(cs: seq<Cell>, group: string, axis: seq<int>)
    requires Distinct(axis)
    ensures Sum(Row(cs, group, axis)) == CountIn(cs, [group], axis)
    decreases |axis|
  {
    if |axis| > 0 {
      assert Row(cs, group, axis) == [multiset(cs)[Cell(group, axis[0])]] + Row(cs, group, axis[1..]);
      RowSum(cs, group, axis[1..]);
      OccurrencesAreMultiplicity(cs, Cell(group, axis[0]));
      assert axis == [axis[0]] + axis[1..];
      SplitFirstPeriod(cs, group, axis[0], axis[1..]);
    } else {
      CountInEmptyAxis(cs, [group]);
    }
  }

  lemma {:induction false} CountInEmptyAxis(cs: seq<Cell>, groups: seq<string>)
    ensures CountIn(cs, groups, []) == 0
    decreases |cs|
  {
    if |cs| > 0 {
      CountInEmptyAxis(cs[1..], groups);
    }
  }

  lemma {:induction false} CountInNoGroups(cs: seq<Cell>, axis: seq<int>)
    ensures CountIn(cs, [], axis) == 0
    decreases |cs|
  {
    if |cs| > 0 {
      CountInNoGroups(cs[1..], axis);
    }
  }

  /** With distinct groups and periods, the whole matrix adds up to the number
      of cells whose group is listed and whose period is on the axis. */
  lemma {:induction false} TotalIsCountIn(cs: seq<Cell>, groups: seq<string>, axis: seq<int>)
    requires Distinct(groups) && Distinct(axis)
    ensures Total(Buckets(cs, groups, axis)) == CountIn(cs, groups, axis)
    decreases |groups|
  {
    if |groups| > 0 {
      assert Buckets(cs, groups, axis) == [Row(cs, groups[0], axis)] + Buckets(cs, groups[1..], axis);
      RowSum(cs, groups[0], axis);
      TotalIsCountIn(cs, groups[1..], axis);
      assert groups == [groups[0]] + groups[1..];
      SplitFirstGroup(cs, groups[0], groups[1..], axis);
    } else {
      CountInNoGroups(cs, axis);
    }
  }

  lemma {:induction false} AllOnAxis(cs: seq<Cell>, groups: seq<string>, axis: seq<int>)
    requires forall c :: c in cs ==> c.period in axis
    ensures CountIn(cs, groups, axis) == CountListed(cs, groups)
    decreases |cs|
  {
    if |cs| > 0 {
      assert cs[0] in cs;
      AllOnAxis(cs[1..], groups, axis);
    }
  }

  /** Conservation: when the groups are distinct, the periods are distinct and
      every cell's period is on the axis, the entries of the bucket matrix add
      up to the number of cells whose age group is listed; cells of other age
      groups are the only ones not counted, and none is counted twice. */
  lemma BucketsConserveCells(cs: seq<Cell>, groups: seq<string>, axis: seq<int>)
    requires Distinct(groups) && Distinct(axis)
    requires forall c :: c in cs ==> c.period in axis
    ensures Total(Buckets(cs, groups, axis)) == CountListed(cs, groups)
  {
    TotalIsCountIn(cs, groups, axis);
    AllOnAxis(cs, groups, axis);
  }

  /** Number of records whose age group is among `groups`. */
  function ListedRecords(recs: seq<Record>, groups: seq<string>): nat {
    if |recs| == 0 then 0
    else (if recs[0].ageGroup in groups then 1 else 0) + ListedRecords(recs[1..], groups)
  }

  lemma {:induction false} CellsKeepGroups(recs: seq<Record>, groups: seq<string>, weekly: bool, week: Day -> Week)
    ensures CountListed(CellsOf(recs, weekly, week), groups) == ListedRecords(recs, groups)
    decreases |recs|
  {
    if |recs| > 0 {
      assert CellsOf(recs, weekly, week)[1..] == CellsOf(recs[1..], weekly, week);
      CellsKeepGroups(recs[1..], groups, weekly, week);
    }
  }

  /** Conservation for records: every record whose age group is listed is
      counted in exactly one entry, provided every record's period is on the
      axis. */
  lemma BucketsConserveRecords(recs: seq<Record>, groups: seq<string>, axis: seq<int>, weekly: bool, week: Day -> Week)
    requires Distinct(groups) && Distinct(axis)
    requires forall x :: x in recs ==> PeriodOf(x, weekly, week) in axis
    ensures Total(Buckets(CellsOf(recs, weekly, week), groups, axis)) == ListedRecords(recs, groups)
  {
    var cs := CellsOf(recs, weekly, week);
    forall c | c in cs
      ensures c.period in axis
    {
      var i :| 0 <= i < |cs| && cs[i] == c;
      assert recs[i] in recs;
    }
    BucketsConserveCells(cs, groups, axis);
    CellsKeepGroups(recs, groups, weekly, week);
  }
}
