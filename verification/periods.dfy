/** The time axis of the chart: the ISO weeks that occur among the selected
    records (weekly charts), or every day from the earliest to the latest
    record date (daily charts). */
module Periods {
  import opened Common
  import opened Selection

  /** An ISO week number. The script keeps no year with it, so the same week
      of two different years is one period. */
  type Week = int

  /** The period a record is counted in: the ISO week of its date in weekly
      mode, its date itself in daily mode. `week` stands for the calendar's
      ISO-week function. */
  function PeriodOf(x: Record, weekly: bool, week: Day -> Week): int {
    if weekly then week(x.date) else x.date
  }

  /** Adds `v` to a sorted, duplicate-free sequence. */
  function Insert(s: seq<int>, v: int): (r: seq<int>)
    requires StrictlyIncreasing(s)
    ensures StrictlyIncreasing(r)
    ensures forall u :: u in r <==> u in s || u == v
  {
    if |s| == 0 then [v]
    else if v < s[0] then [v] + s
    else if v == s[0] then s
    else
      assert forall u :: u in s <==> u == s[0] || u in s[1..];
      var rest := Insert(s[1..], v);
      assert forall i :: 0 <= i < |rest| ==> s[0] < rest[i] by {
        forall i | 0 <= i < |rest|
          ensures s[0] < rest[i]
        {
          assert rest[i] in rest;
        }
      }
      [s[0]] + rest
  }

  /** The distinct values of `s` in ascending order. */
  function SortedDistinct(s: seq<int>): (r: seq<int>)
    ensures StrictlyIncreasing(r)
    ensures forall u :: u in r <==> u in s
  {
    if |s| == 0 then []
    else
      assert forall u :: u in s <==> u == s[0] || u in s[1..];
      Insert(SortedDistinct(s[1..]), s[0])
  }

  /** A sorted, duplicate-free sequence is determined by its elements. */
  lemma {:induction false} IncreasingDeterminedByElements(a: seq<int>, b: seq<int>)
    requires StrictlyIncreasing(a) && StrictlyIncreasing(b)
    requires forall u :: u in a <==> u in b
    ensures a == b
    decreases |a|
  {
    if |a| == 0 {
      WithoutMembersIsEmpty(b);
    } else {
      assert a[0] in b && b[0] in a;
      assert a[0] == b[0];
      forall u
        ensures u in a[1..] <==> u in b[1..]
      {
        assert u in a[1..] <==> u in a && u != a[0];
        assert u in b[1..] <==> u in b && u != b[0];
      }
      IncreasingDeterminedByElements(a[1..], b[1..]);
      assert a == [a[0]] + a[1..] && b == [b[0]] + b[1..];
    }
  }

  /** The ISO week of each record, in record order. */
  function WeeksOf(recs: seq<Record>, week: Day -> Week): seq<Week> {
    seq(|recs|, i requires 0 <= i < |recs| => week(recs[i].date))
  }

  /** The week axis: the weeks that occur among the records, each once, in
      ascending order. */
  function WeekAxis(recs: seq<Record>, week: Day -> Week): (axis: seq<Week>)
    ensures StrictlyIncreasing(axis)
    ensures forall x :: x in recs ==> week(x.date) in axis
    ensures forall w :: w in axis ==> exists x :: x in recs && week(x.date) == w
  {
    var weeks := WeeksOf(recs, week);
    forall x | x in recs
      ensures week(x.date) in weeks
    {
      var i :| 0 <= i < |recs| && recs[i] == x;
      assert weeks[i] == week(x.date);
    }
    forall w | w in weeks
      ensures exists x :: x in recs && week(x.date) == w
    {
      var i :| 0 <= i < |weeks| && weeks[i] == w;
      assert recs[i] in recs;
    }
    SortedDistinct(weeks)
  }

  /** Any ascending, duplicate-free list of exactly the weeks that occur among
      the records is the week axis: sorting the distinct weeks has one answer. */
  lemma WeekAxisIsUnique(recs: seq<Record>, week: Day -> Week, axis: seq<Week>)
    requires StrictlyIncreasing(axis)
    requires forall w :: w in axis <==> exists x :: x in recs && week(x.date) == w
    ensures axis == WeekAxis(recs, week)
  {
    var expected := WeekAxis(recs, week);
    forall w
      ensures w in axis <==> w in expected
    {
      if w in axis {
        var x :| x in recs && week(x.date) == w;
      }
    }
    IncreasingDeterminedByElements(axis, expected);
  }

  /** The earliest date among the records. */
  function Earliest(recs: seq<Record>): (d: Day)
    requires |recs| > 0
    ensures forall x :: x in recs ==> d <= x.date
    ensures exists x :: x in recs && x.date == d
  {
    if |recs| == 1 then recs[0].date
    else
      var rest := Earliest(recs[1..]);
      assert forall x :: x in recs <==> x == recs[0] || x in recs[1..];
      if recs[0].date <= rest then recs[0].date else rest
  }

  /** The latest date among the records. */
  function Latest(recs: seq<Record>): (d: Day)
    requires |recs| > 0
    ensures forall x :: x in recs ==> x.date <= d
    ensures exists x :: x in recs && x.date == d
  {
    if |recs| == 1 then recs[0].date
    else
      var rest := Latest(recs[1..]);
      assert forall x :: x in recs <==> x == recs[0] || x in recs[1..];
      if recs[0].date >= rest then recs[0].date else rest
  }

  /** The day axis: every day from the earliest record date to the latest,
      one after the other. Without records there is no earliest date and the
      axis cannot be formed. */
  function DayAxis(recs: seq<Record>): (axis: Option<seq<Day>>)
    ensures axis.Some? <==> |recs| > 0
    ensures axis.Some? ==> |axis.value| > 0
    ensures axis.Some? ==> Consecutive(axis.value)
    ensures axis.Some? ==> forall x :: x in recs ==> x.date in axis.value
    ensures axis.Some? ==> exists x :: x in recs && x.date == axis.value[0]
    ensures axis.Some? ==> exists x :: x in recs && x.date == axis.value[|axis.value| - 1]
  {
    if |recs| == 0 then None
    else
      var lo := Earliest(recs);
      var hi := Latest(recs);
      var days := seq(hi - lo + 1, i requires 0 <= i <= hi - lo => lo + i);
      forall x | x in recs
        ensures x.date in days
      {
        assert days[x.date - lo] == x.date;
      }
      Some(days)
  }

  /** The chart's time axis for the selected records: weeks in weekly mode,
      days otherwise. It is sorted without duplicates and every record's
      period is on it. Every week on a weekly axis is some record's week; a
      daily axis is the run of days from an earliest record date to a latest
      one. */
  function Axis(recs: seq<Record>, weekly: bool, week: Day -> Week): (axis: seq<int>)
    requires |recs| > 0
    ensures StrictlyIncreasing(axis)
    ensures forall x :: x in recs ==> PeriodOf(x, weekly, week) in axis
    ensures weekly ==> forall w :: w in axis ==> exists x :: x in recs && week(x.date) == w
    ensures !weekly ==> Consecutive(axis) && |axis| > 0
    ensures !weekly ==> (exists x :: x in recs && x.date == axis[0]) && (exists x :: x in recs && x.date == axis[|axis| - 1])
  {
    if weekly then WeekAxis(recs, week) else DayAxis(recs).value
  }

  lemma WithoutMembersIsEmpty(s: seq<int>)
    ensures (forall u :: u !in s) ==> |s| == 0
  {
    if |s| > 0 {
      var first := s[0];
      assert first in s;
    }
  }

  lemma IncreasingIsDistinct(s: seq<int>)
    requires StrictlyIncreasing(s)
    ensures Distinct(s)
  {
  }
}
