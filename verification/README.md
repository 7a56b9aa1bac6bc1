# Age mix of Florida COVID-19 case lines

A model of the pure core of `agemix.py`, the script that charts the age mix of
Florida's COVID-19 positives (or deaths) over time as a stacked-area chart.
From the fetched case-line records the script:

- decodes its options (the "only deaths?" answer, daily or weekly chart, all
  ten age brackets or only the three from 65 up);
- keeps the records of the chosen county and, in deaths mode, those with
  `Died == 'Yes'`;
- lays out the time axis: the sorted distinct ISO weeks of the records, or
  every day from the earliest to the latest record date;
- counts the records per age group and period;
- turns each period's counts into percentages of the period's total;
- cuts the chart at its first period: 2020-03-01 for a daily chart, the ISO
  week of 2020-02-01 for a weekly one.

Modules, one file each:

- `Common` (`common.dfy`): `Option`, `Result`, sequence predicates, order-keeping
  `Filter`, sums.
- `Settings` (`settings.dfy`): the deaths answer, the mode flags, the age
  groups and the age ranges their names stand for.
- `Selection` (`selection.dfy`): records and the county / deaths filters.
- `Periods` (`periods.dfy`): the week axis and the day axis.
- `AgeBuckets` (`buckets.dfy`): the age-group by period count matrix.
- `Normalisation` (`percentages.dfy`): the in-place percentage conversion.
- `Window` (`window.dfy`): the start index and the column slice.
- `Pipeline` (`pipeline.dfy`): the stages composed, from records to the
  plotted series.

Dates are day numbers (days since 1970-01-01), so 2020-03-01 is 18322 and
2020-02-01 is 18293. The ISO-week function of the calendar is a parameter
`week: Day -> Week`. Counts are `nat` and the percentages are exact `real`s.

The module docstring (agemix.py:4-5) pairs state-level charts with daily
periods and county-level charts with weekly ones. In the code a chart is also
weekly when only deaths are charted or when percentages are off
(agemix.py:70-73); `Configure` follows the code.

## Model

| member | source | states |
|---|---|---|
| Settings.ParseDeaths | agemix.py:66-67 | Deaths mode is on exactly when the answer, upper-cased, is "Y" or "YES": one or three characters spelling y / y-e-s in any case. The long s counts as an s because Python upper-cases it to S. |
| Settings.Configure | agemix.py:55-73 | The options are passed through and the deaths flag is the parsed answer. The chart is weekly when a county is given, when only deaths are charted or when percentages are off. It is daily exactly for a statewide chart of positives in percentages. |
| Settings.AgeGroups | agemix.py:88-108 | The rows are ten distinct labels (three with `older`), and the last one is "85+ years". |
| Settings.AgeGroupsPartitionAges | agemix.py:88-108 | The age ranges of the rows run from 0 (from 65 with `older`) upwards without gap or overlap: every age from there on lies in exactly one row, and no younger age lies in any. |
| Settings.GroupsNameBrackets | agemix.py:91-108 | Both lists have as many labels as age ranges, and label i is the data set's name of age range i ("lo-hi years", or "85+ years"). |
| Settings.BracketsTile | agemix.py:91-108 | Each closed range ends just before the next one starts, and only the last range is open-ended. |
| Selection.OfCounty | agemix.py:161-162 | The county filter keeps the records in order. Every record kept is of that county, and every record of that county is kept as often as it occurs in the input; no other record occurs. |
| Selection.Deaths | agemix.py:164-165 | The deaths filter keeps the records in order. Every record kept has `Died == "Yes"`, and every such record is kept as often as it occurs in the input; no other record occurs. |
| Selection.Select | agemix.py:160-165 | The two filters only drop records: the result is an order-preserving subsequence of the input and no longer. It has every passing record as often as the input, and no other record. |
| Selection.SelectIsIdempotent | agemix.py:160-165 | Filtering an already filtered selection again leaves it unchanged. |
| Periods.WeekAxis | agemix.py:173-180 | The week axis is strictly increasing. It holds every record's week, and every week on it is some record's week. |
| Periods.WeekAxisIsUnique | agemix.py:179-180 | Any strictly increasing list of exactly the weeks present is the week axis, so `unique` followed by `sort` has one answer. |
| Periods.DayAxis | agemix.py:82 | The day range exists exactly when there are records. It is a non-empty run of consecutive days from an earliest record date to a latest one and holds every record's date. |
| Periods.Axis | agemix.py:173-196 | The axis of the chart's mode is strictly increasing and holds every record's period. In weekly mode every week on it is some record's week. In daily mode it is a non-empty run of consecutive days whose first and last days are record dates. |
| AgeBuckets.CountInPeriod | agemix.py:191 | Counting the group's cells that fall in one period gives that period's multiplicity among them. |
| AgeBuckets.CountRow | agemix.py:186-197 | One row per age group: entry j is the number of cells of that group in period j of the axis. |
| AgeBuckets.CreateAgeBuckets | agemix.py:183-198 | The matrix has one row per group and one column per period. Each entry is the number of records with that age group and that period, which is the reference matrix `Buckets`. |
| AgeBuckets.BucketsConserveRecords | agemix.py:183-198 | With distinct groups, distinct periods and every record's period on the axis, the entries add up to the number of records whose age group is listed. |
| Normalisation.NormalisedColumn | agemix.py:205-212 | A column with a nonzero total becomes 100 times each entry over the total and then adds up to 100. A column with a zero total is unchanged. |
| Normalisation.SharesBetweenZeroAndHundred | agemix.py:205-212 | With no negative entries, every share of a nonzero column lies between 0 and 100. |
| Normalisation.NormaliseInPlace | agemix.py:203-212 | The in-place column-by-column loop yields exactly the matrix of shares `Percentages`. |
| Window.Cutoff | agemix.py:217-229 | A daily chart starts on 2020-03-01 (day 18322) and a weekly chart at the ISO week of 2020-02-01 (day 18293). Both days are given as Gregorian calendar dates counted from 1970-01-01. |
| Window.FirstIndexOf | agemix.py:219-222 | The search finds the first position holding the target, and finds nothing exactly when the target is absent. |
| Window.StartIndex | agemix.py:214-240 | The start fails exactly for a weekly chart whose axis lacks the cutoff week. Otherwise it is the cutoff's first position, or 0 (the whole axis) for a daily chart without the cutoff day. |
| Window.DropColumns | agemix.py:224-225 | Transposing, dropping the first rows and transposing back leaves every row holding exactly its entries from the start column on. |
| Window.WindowOfPercentages | agemix.py:205-236 | After cutting, every column of the shares of non-negative counts adds up to 100 or is all zeros. |
| Pipeline.Cut | agemix.py:214-240 | The chart fails exactly when the weekly cutoff is missing. Otherwise it has one series per group. The periods shown are the axis tail that starts at the cutoff (or the whole daily axis), and the series keep exactly their columns. |
| Pipeline.ChartOf | agemix.py:201-236 | The chart of a non-empty selection fails exactly when a weekly axis lacks the cutoff week, and its rows are the age groups. |
| Pipeline.Analyse | agemix.py:75-82 | The analysis fails for want of records exactly when no record passes the filters. Otherwise it is the chart of the selection. |
| Pipeline.CountMatrixConservesRecords | agemix.py:183-198 | Every selected record whose age group is a row is counted exactly once. |
| Pipeline.CutKeepsOrder | agemix.py:224-236 | Cutting keeps an ascending axis ascending and a consecutive one consecutive. |
| Pipeline.PeriodsAscend | agemix.py:179-236 | The periods shown ascend without repeats. In a daily chart they are consecutive days. |
| Pipeline.CutOfPercentages | agemix.py:205-236 | Cutting the shares of a count matrix leaves every period shown adding up to 100 or all zeros. |
| Pipeline.PercentageColumnsAddUp | agemix.py:205-236 | In a percentage chart every period shown adds up to 100 over the age groups, or has every entry 0. |
| Pipeline.CutOfCountMatrix | agemix.py:203-236 | Cutting a count matrix shows, for each period kept, that period's axis position and its counts, unchanged, as reals. |
| Pipeline.CutOfCounts | agemix.py:183-236 | After cutting a bucket matrix, entry (j, k) is the number of cells of age group j in the k-th period shown. |
| Pipeline.CountChartEntries | agemix.py:183-236 | In a chart of counts every plotted entry is the number of selected records of that row's age group in that column's period. |

## Left out

- The paginated HTTP fetch with sleep-and-retry, JSON decoding and data-frame assembly (agemix.py:112-152): network I/O.
- The CSV snapshot and the PNG output (agemix.py:158, 273-276): file I/O.
- Plotting, legend, titles and layout (agemix.py:215-276): chart styling. The weekly chart's conversion of weeks back to dates (`week2datetime`, agemix.py:84-86, 239-241) is left out as well. Only its failure when no start week was found is kept, as `StartWeekMissing`.
- The console prompts of the main block and the timing helper (agemix.py:281-294, 44-50): I/O. `Configure` takes the percentage answer as an already decoded boolean.
- The conversion of epoch milliseconds to a local date and the choice of the date column (agemix.py:172): it depends on the time zone, so a record carries its date as a day number.
- The ISO-week computation (`isocalendar`, agemix.py:175): library calendar code. It is the parameter `week`. As in the script, a week number carries no year, so the same week of two years is one period.
- The list of counties (agemix.py:78-79): it is not used by the chart.
- Settings.ParseDeaths: Python's full Unicode upper-casing is modelled only for ASCII letters and the long s (U+017F). Of the single characters that Python upper-cases to Y, E or S, these are the only ones.
- Normalisation.NormaliseInPlace: computes over exact reals, not floating point, so rounding in the percentage step is not modelled.
- Normalisation.NormaliseInPlace: requires a non-empty matrix, because the script reads `ys[0]`. The chart always has three or ten rows.
