/** The chart options decided when an analysis is set up: whether only deaths
    are charted, whether the chart is daily or weekly, and which age brackets
    form the rows of the chart. */
module Settings {
  import opened Common

  /** U+017F LATIN SMALL LETTER LONG S, whose upper case is the ASCII 'S'. */
  const LongS: char := '\U{017F}'

  /** Upper case of one character: ASCII letters, and the long s, which is the
      one other character whose upper case is one of the letters of "YES". */
  function UpperChar(c: char): char {
    if 'a' <= c <= 'z' then (c as int - 32) as char
    else if c == LongS then 'S'
    else c
  }

  /** Upper case of a string, character by character. */
  function Upper(s: string): string {
    seq(|s|, i requires 0 <= i < |s| => UpperChar(s[i]))
  }

  /** The characters a user may type for each letter of a "yes" answer. */
  predicate SpellsY(c: char) { c == 'y' || c == 'Y' }
  predicate SpellsE(c: char) { c == 'e' || c == 'E' }
  predicate SpellsS(c: char) { c == 's' || c == 'S' || c == LongS }

  lemma UpperCharLetters(c: char)
    ensures UpperChar(c) == 'Y' <==> SpellsY(c)
    ensures UpperChar(c) == 'E' <==> SpellsE(c)
    ensures UpperChar(c) == 'S' <==> SpellsS(c)
  {
  }

  /** The "only deaths?" answer selects deaths mode when, upper-cased, it reads
      "Y" or "YES"; so exactly the one- and three-letter spellings of yes in
      any mixture of cases are accepted, and everything else (the empty
      default included) means positives. */
  function ParseDeaths(answer: string): (deaths: bool)
    ensures deaths <==>
      (|answer| == 1 && SpellsY(answer[0])) ||
      (|answer| == 3 && SpellsY(answer[0]) && SpellsE(answer[1]) && SpellsS(answer[2]))
  {
    var a := Upper(answer);
    if |answer| == 1 then
      UpperCharLetters(answer[0]);
      assert a == "Y" <==> a[0] == 'Y';
      a == "Y" || a == "YES"
    else if |answer| == 3 then
      UpperCharLetters(answer[0]);
      UpperCharLetters(answer[1]);
      UpperCharLetters(answer[2]);
      assert a == "YES" <==> a[0] == 'Y' && a[1] == 'E' && a[2] == 'S';
      a == "Y" || a == "YES"
    else
      a == "Y" || a == "YES"
  }

  /** The options of one analysis. `county` is None for the whole state. */
  datatype Config = Config(
    county: Option<string>,
    deaths: bool,
    percentage: bool,
    older: bool,
    weekly: bool)

  /** Sets up an analysis from its arguments: the county (None for the state),
      the raw "only deaths?" answer, whether to chart percentages, and whether
      to restrict the chart to the older brackets. The chart is daily only for
      a statewide chart of positives in percentages; every other combination
      is weekly. */
  function Configure(county: Option<string>, deathsAnswer: string, percentage: bool, older: bool): (c: Config)
    ensures c.county == county && c.percentage == percentage && c.older == older
    ensures c.deaths == ParseDeaths(deathsAnswer)
    ensures county.Some? ==> c.weekly
    ensures c.deaths ==> c.weekly
    ensures !percentage ==> c.weekly
    ensures !c.weekly <==> county.None? && !c.deaths && percentage
  {
    var deaths := ParseDeaths(deathsAnswer);
    var weekly := county.Some? || deaths || !percentage;
    Config(county, deaths, percentage, older, weekly)
  }

  /** The age-group labels that form the rows of the chart, youngest first:
      the ten brackets of the data set, or only the three from 65 up. */
  function AgeGroups(older: bool): (groups: seq<string>)
    ensures Distinct(groups)
    ensures |groups| == if older then 3 else 10
    ensures groups[|groups| - 1] == "85+ years"
  {
    if older then
      ["65-74 years", "75-84 years", "85+ years"]
    else
      ["0-4 years", "5-14 years", "15-24 years", "25-34 years", "35-44 years",
       "45-54 years", "55-64 years", "65-74 years", "75-84 years", "85+ years"]
  }

  /** The older brackets are the last three of the full list, in the same order. */
  lemma OlderGroupsAreOldestBrackets()
    ensures AgeGroups(true) == AgeGroups(false)[7..]
  {
  }

  /** The age range that a bracket name such as "15-24 years" or "85+ years" stands for. */
  datatype Bracket = Closed(lo: nat, hi: nat) | From(lo: nat)

  predicate InBracket(age: nat, b: Bracket) {
    b.lo <= age && (b.Closed? ==> age <= b.hi)
  }

  /** Decimal digits of `n`, most significant first, without leading zeros. */
  function DecimalString(n: nat): string {
    if n < 10 then [('0' as int + n) as char]
    else DecimalString(n / 10) + [('0' as int + n % 10) as char]
  }

  /** The data set's name for an age range: "<lo>-<hi> years" or "<lo>+ years". */
  function BracketName(b: Bracket): string {
    match b
    case Closed(lo, hi) => DecimalString(lo) + "-" + DecimalString(hi) + " years"
    case From(lo) => DecimalString(lo) + "+ years"
  }

  /** The age ranges of the chart rows, youngest first. */
  function AgeBrackets(older: bool): seq<Bracket> {
    if older then [Closed(65, 74), Closed(75, 84), From(85)]
    else [Closed(0, 4), Closed(5, 14), Closed(15, 24), Closed(25, 34), Closed(35, 44),
          Closed(45, 54), Closed(55, 64), Closed(65, 74), Closed(75, 84), From(85)]
  }

  /** The brackets cover every age from `from` on without gap or overlap:
      each closed bracket ends just before the next one starts, and only the
      last one is open-ended. */
  predicate Tiles(bs: seq<Bracket>, from: nat)
    decreases |bs|
  {
    |bs| > 0 && bs[0].lo == from &&
    if |bs| == 1 then bs[0].From?
    else bs[0].Closed? && bs[0].lo <= bs[0].hi && Tiles(bs[1..], bs[0].hi + 1)
  }

  /** Number of brackets that contain `age`. */
  function Holding(bs: seq<Bracket>, age: nat): nat {
    if |bs| == 0 then 0 else (if InBracket(age, bs[0]) then 1 else 0) + Holding(bs[1..], age)
  }

  /** Brackets that tile the ages from `from` on put every such age in exactly
      one bracket, and no younger age in any. */
  lemma {:induction false} TiledAgeInExactlyOneBracket(bs: seq<Bracket>, from: nat, age: nat)
    requires Tiles(bs, from)
    ensures Holding(bs, age) == if age >= from then 1 else 0
    decreases |bs|
  {
    if |bs| > 1 {
      TiledAgeInExactlyOneBracket(bs[1..], bs[0].hi + 1, age);
    }
  }

  /** Each chart row is the data set's name for the age range of the
      bracket at the same position. */
  lemma GroupsNameBrackets(older: bool)
    ensures |AgeGroups(older)| == |AgeBrackets(older)|
    ensures forall i :: 0 <= i < |AgeGroups(older)| ==> AgeGroups(older)[i] == BracketName(AgeBrackets(older)[i])
  {
    YoungerNames();
    OlderNames();
  }

  /** The brackets run upwards from 0 (from 65 with `older`) without gap or
      overlap. */
  lemma BracketsTile(older: bool)
    ensures Tiles(AgeBrackets(older), if older then 65 else 0)
  {
    var bs := AgeBrackets(false);
    assert Tiles(bs[9..], 85);
    assert Tiles(bs[8..], 75);
    assert Tiles(bs[7..], 65);
    assert Tiles(bs[6..], 55);
    assert Tiles(bs[5..], 45);
    assert Tiles(bs[4..], 35);
    assert Tiles(bs[3..], 25);
    assert Tiles(bs[2..], 15);
    assert Tiles(bs[1..], 5);
    assert bs[0..] == bs;
    assert AgeBrackets(true) == bs[7..];
  }

  /** The age ranges of the rows run upwards from 0 (from 65 with `older`)
      without gap or overlap, so every age from there on falls in exactly one
      row, and no younger age in any. */
  lemma AgeGroupsPartitionAges(older: bool, age: nat)
    ensures Holding(AgeBrackets(older), age) == if age >= (if older then 65 else 0) then 1 else 0
  {
    BracketsTile(older);
    TiledAgeInExactlyOneBracket(AgeBrackets(older), if older then 65 else 0, age);
  }

  lemma Numerals()
    ensures DecimalString(0) == "0" && DecimalString(4) == "4" && DecimalString(5) == "5"
    ensures DecimalString(14) == "14" && DecimalString(15) == "15" && DecimalString(24) == "24"
    ensures DecimalString(25) == "25" && DecimalString(34) == "34" && DecimalString(35) == "35"
    ensures DecimalString(44) == "44" && DecimalString(45) == "45" && DecimalString(54) == "54"
    ensures DecimalString(55) == "55" && DecimalString(64) == "64" && DecimalString(65) == "65"
    ensures DecimalString(74) == "74" && DecimalString(75) == "75" && DecimalString(84) == "84"
    ensures DecimalString(85) == "85"
  {
  }

  lemma YoungerNames()
    ensures BracketName(Closed(0, 4)) == "0-4 years"
    ensures BracketName(Closed(5, 14)) == "5-14 years"
    ensures BracketName(Closed(15, 24)) == "15-24 years"
    ensures BracketName(Closed(25, 34)) == "25-34 years"
    ensures BracketName(Closed(35, 44)) == "35-44 years"
  {
    Numerals();
  }

  lemma OlderNames()
    ensures BracketName(Closed(45, 54)) == "45-54 years"
    ensures BracketName(Closed(55, 64)) == "55-64 years"
    ensures BracketName(Closed(65, 74)) == "65-74 years"
    ensures BracketName(Closed(75, 84)) == "75-84 years"
    ensures BracketName(From(85)) == "85+ years"
  {
    Numerals();
  }
}
