/** The case-line records and the selection of the records a chart is drawn
    from: those of the chosen county and, when only deaths are charted, those
    of people who died. */
module Selection {
  import opened Common

  /** A local calendar date, as the number of days since 1970-01-01. */
  type Day = int

  /** One case line: the county, the "Died" column ("Yes" for a death), the
      age-group name, and the date chosen for the chart. */
  datatype Record = Record(county: string, died: string, ageGroup: string, date: Day)

  /** Whether a record survives the filters for the given county (None for
      the whole state) and deaths mode. */
  predicate Selected(x: Record, county: Option<string>, deaths: bool) {
    (county.Some? ==> x.county == county.value) && (deaths ==> x.died == "Yes")
  }

  /** The records of one county, in their original order. */
  function OfCounty(recs: seq<Record>, county: string): (r: seq<Record>)
    ensures IsSubsequence(r, recs)
    ensures forall x :: x in r ==> x.county == county
    ensures forall x :: x in recs && x.county == county ==> x in r
    ensures forall x :: multiset(r)[x] == if x.county == county then multiset(recs)[x] else 0
  {
    Filter(recs, (x: Record) => x.county == county)
  }

  /** The records of deaths, in their original order. */
  function Deaths(recs: seq<Record>): (r: seq<Record>)
    ensures IsSubsequence(r, recs)
    ensures forall x :: x in r ==> x.died == "Yes"
    ensures forall x :: x in recs && x.died == "Yes" ==> x in r
    ensures forall x :: multiset(r)[x] == if x.died == "Yes" then multiset(recs)[x] else 0
  {
    Filter(recs, (x: Record) => x.died == "Yes")
  }

  /** The county filter followed by the deaths filter. The result only drops
      records: it keeps the order of the rest, every record in it passes both
      filters, and every copy of a record that passes both is kept. */
  function Select(recs: seq<Record>, county: Option<string>, deaths: bool): (r: seq<Record>)
    ensures |r| <= |recs|
    ensures IsSubsequence(r, recs)
    ensures forall x :: x in r ==> Selected(x, county, deaths)
    ensures forall x :: multiset(r)[x] == if Selected(x, county, deaths) then multiset(recs)[x] else 0
  {
    var byCounty := if county.Some? then OfCounty(recs, county.value) else recs;
    var selected := if deaths then Deaths(byCounty) else byCounty;
    assert |byCounty| <= |recs| && |selected| <= |byCounty|;
    SubsequenceReflexive(recs);
    SubsequenceReflexive(byCounty);
    SubsequenceTransitive(selected, byCounty, recs);
    selected
  }

  /** Selecting again changes nothing: the selection keeps every record that
      passes the filters. */
  lemma SelectIsIdempotent(recs: seq<Record>, county: Option<string>, deaths: bool)
    ensures Select(Select(recs, county, deaths), county, deaths) == Select(recs, county, deaths)
  {
    var s := Select(recs, county, deaths);
    var t := Select(s, county, deaths);
    assert multiset(t) == multiset(s);
    assert |t| == |multiset(t)| == |multiset(s)| == |s|;
    SubsequenceOfSameLength(t, s);
  }
}
