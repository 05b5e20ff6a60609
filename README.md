# Aadhaar batch analysis: a Dafny model

This project models the deterministic core of the Aadhaar analysis scripts
and proves properties about it. The core has four parts.

- The district risk pipeline of `KillerMoveAnalyzer`:
  - it aggregates the enrolment, demographic and biometric record tables per
    `(date, state, district)` key and outer-joins them with zero fill;
  - it engineers completion rates, youth ratios and calendar flags;
  - it scores every district with the Citizen Exclusion Risk Score (CERS),
    buckets the score into Low/Medium/High/Critical and summarises it;
  - it derives the intervention framework (mobile vans, proactive alerts,
    capacity building) and the economic estimate.
- The column heuristics of the biometric script: type coercion of a freshly
  read frame, column roles by dtype and name, file-name sanitisation, the
  success/failure label mapping, the branch of the outcome analysis (as
  written and with numeric labels mapped by value) and the best-k choice.
- The per-dataset KPIs of the insight report: the first-match column pick,
  state shares, daily volumes, the share-delta ranking and the daily
  volatility denominator.
- The per-dataset metrics of the comparative dashboard: the success rate of
  the outcome label (both as written and with numeric labels mapped by value;
  the metrics record uses the latter, see Findings) and the top values of the
  first two geographic columns.

Tables are sequences of typed cells (`Frames`). Records and aggregates are
`nat` counts. Rates, shares and scores are exact `real`s.

The modules are:

| module | file |
|---|---|
| `Wrappers` | `wrappers.dfy` |
| `Seqs` | `seqs.dfy` |
| `Text` | `text.dfy` |
| `Calendar` | `calendar.dfy` |
| `Frames` | `frames.dfy` |
| `Schema` | `schema.dfy` |
| `RiskData` | `risk_data.dfy` |
| `RiskScore` | `risk_score.dfy` |
| `Interventions` | `interventions.dfy` |
| `Analyzer` | `analyzer.dfy` |
| `Insights` | `insights.dfy` |
| `DatasetMetrics` | `dataset_metrics.dfy` |

- `Seqs` holds the generic helpers: filter, count, tally, mean, take and a
  descending insertion sort.
- `Text` holds lowercasing, substring search, name sanitisation and number
  rendering and parsing.
- `Calendar` holds dates, quarters, day of week and the season flags.
- `Frames` holds cells, columns and the missingness figures.

The analyzer object is a class. Its methods update its fields in the order
`run_full_analysis` calls them. The column-coercion loop, the best-k loop,
`pick_col` and the `top_geo` loop are methods with loop invariants. The
column-coercion loop, `pick_col` and the `top_geo` loop are proved equal to
specification functions. The best-k loop is proved to return the first k of
maximal score, or none when every score is at most -1.

## Model

| member | source | states |
|---|---|---|
| Seqs.Filter | analysis/advanced_risk_analysis.py:381-382 | a row filter keeps exactly the rows satisfying the predicate, and never more rows than it was given |
| Seqs.Tally | analysis/generate_insights.py:96 | `value_counts`: each distinct value appears once as a key, every value of the column is a key, and each count equals the number of occurrences |
| Seqs.TallyTotal | analysis/generate_insights.py:96-97 | the value counts sum to the number of cells, so `total` is the row count |
| Seqs.SortDesc | analysis/generate_insights.py:100 | `sort_values(ascending=False)`: the result is a permutation of the input and is sorted non-increasingly |
| Seqs.SortDescSum | analysis/generate_insights.py:100 | sorting does not change any sum over the entries |
| Seqs.Take | analysis/advanced_risk_analysis.py:356 | `head(n)` is a prefix of length min(n, size) |
| Seqs.MeanBounds | analysis/multi_dataset_analysis.py:83 | a mean of values lying in [lo, hi] lies in [lo, hi] |
| Seqs.Distinct | analysis/biometric_analysis.py:89 | the distinct values have the same members as the column and no repeats |
| Seqs.DistinctNoLonger | analysis/biometric_analysis.py:89 | there are never more distinct values than cells |
| Text.LowerIsLower | analysis/biometric_analysis.py:60 | `lower()` keeps the length, leaves no upper-case ASCII letter and is idempotent |
| Text.Lower | analysis/biometric_analysis.py:60 | lower-casing keeps the length and leaves no upper-case ASCII letter |
| Text.ContainsSubAt | analysis/biometric_analysis.py:60 | the `k in name` test holds exactly when k occurs at some position of name |
| Text.SafeNameShape | analysis/biometric_analysis.py:113-114 | a sanitised name has the input's length, contains no space and no `/`, and maps space to `_` and `/` to `-` position by position |
| Text.SafeName | analysis/biometric_analysis.py:113-114 | the file-name stem has the name's length and contains no space and no `/` |
| Text.SafeNameIdempotent | analysis/multi_dataset_analysis.py:35-36 | sanitising a sanitised name changes nothing |
| Text.IntToStringRoundTrip | analysis/biometric_analysis.py:197 | rendering an integer as text and parsing it back gives the same number |
| Text.NatToStringValue | analysis/biometric_analysis.py:197 | the decimal rendering of n reads back as n |
| Text.ParseNumber | analysis/biometric_analysis.py:75 | a cleaned value parses only when it is non-empty and made of digits and `.` after an optional leading minus, and it parses to a negative number only with that minus; anything else is missing |
| Text.IntegerLiteralValue | analysis/biometric_analysis.py:75 | an integer literal parses to that integer |
| Calendar.DateLeTotal | analysis/advanced_risk_analysis.py:415 | date order is total and antisymmetric |
| Calendar.Quarter | analysis/advanced_risk_analysis.py:172 | a month's quarter lies in 1..4 |
| Calendar.DayOfWeek | analysis/advanced_risk_analysis.py:173 | `dayofweek` lies in 0..6 |
| Calendar.DayOfWeekNextDay | analysis/advanced_risk_analysis.py:173 | the next day of a month has the next weekday, modulo 7 |
| Calendar.DayOfWeekAnchors | analysis/advanced_risk_analysis.py:173 | Monday is 0: 1 January 2024 gives 0 and 29 February 2024 gives 3 |
| Calendar.QuarterEndIff | analysis/advanced_risk_analysis.py:174 | a month is a quarter end exactly when it is three times its quarter |
| Calendar.MinDate | analysis/generate_insights.py:73 | the minimum date is one of the dates and precedes all of them |
| Calendar.MaxDate | analysis/generate_insights.py:74 | the maximum date is one of the dates and follows all of them |
| Frames.FindColumn | analysis/generate_insights.py:76 | a column is found exactly when its name is among the frame's names, and the found column has that name |
| Frames.NullFraction | analysis/multi_dataset_analysis.py:70 | the null fraction of a column lies in [0,1] |
| Frames.MissingRate | analysis/generate_insights.py:72 | the mean over columns of the null fractions lies in [0,1] |
| Frames.NUnique | analysis/generate_insights.py:76 | `nunique(dropna=True)` never exceeds the number of cells |
| Schema.CleanNumeric | analysis/biometric_analysis.py:69-74 | the cleaned text is the input with every character other than a digit, `.` and `-` removed |
| Schema.CleanNumericIdempotent | analysis/biometric_analysis.py:69-74 | cleaning twice equals cleaning once |
| Schema.CoerceColumn | analysis/biometric_analysis.py:58-78 | coercion keeps a column's name and length |
| Schema.CoerceDatetimePath | analysis/biometric_analysis.py:60-63 | a name with a datetime fragment takes the datetime path, and a cell becomes a timestamp exactly when it is text the date parser accepts |
| Schema.CoerceNumericPath | analysis/biometric_analysis.py:67-78 | any other column becomes numeric exactly when strictly more than half its cells parse; otherwise it is unchanged; a numeric cell is null exactly when its text did not parse, else it holds the parsed value |
| Schema.CoerceColumnFits | analysis/biometric_analysis.py:58-78 | coerced cells fit the new dtype |
| Schema.CoercedColumns | analysis/biometric_analysis.py:58 | one coerced column per column of the frame, in order, each keeping its name and its number of cells; what each coerced column holds is stated by CoerceDatetimePath and CoerceNumericPath |
| Schema.CoerceTypes | analysis/biometric_analysis.py:55-79 | the loop over columns returns the frame with every column coerced in order and the row count kept |
| Schema.CoercedWellFormed | analysis/biometric_analysis.py:55-79 | coercing a well-formed raw frame gives a well-formed frame with the same column names |
| Schema.CategoricalNames | analysis/biometric_analysis.py:86-90 | exactly the columns, in order, that are not excluded and have at most 100 distinct non-missing values: every listed name is such a column and every such column is listed |
| Schema.RolesByDtype | analysis/biometric_analysis.py:82-90 | categorical columns are disjoint from numeric and datetime ones and are exactly the remaining columns with at most 100 distinct values; the numeric and datetime names are exactly the columns of those dtypes |
| Schema.IdentifyColumns | analysis/biometric_analysis.py:82-104 | every label candidate is a column whose name holds a label keyword, every geo candidate one whose name holds a geo keyword |
| Schema.CandidatesInOrder | analysis/biometric_analysis.py:91-103 | a name is a label or geo candidate exactly when it is a column whose lower-cased name contains a listed keyword, and the candidates of a prefix of the columns are a prefix of the candidates |
| Schema.LabelCode | analysis/biometric_analysis.py:198-201 | the five success words map to 1, the five failure words map to 0, and any other text is unmapped |
| Schema.NoKeyHasDot | analysis/biometric_analysis.py:198-201 | text containing a `.` never maps |
| Schema.LabelValue | analysis/multi_dataset_analysis.py:76-81 | the corrected label mapping yields only 0 or 1 |
| Schema.NumericKeys | analysis/biometric_analysis.py:198-201 | among the mapping keys only "1" and "0" are numbers |
| Schema.LabelValueAsWritten | analysis/biometric_analysis.py:197-202 | one cell rendered as `astype(str).str.lower()` and looked up in the mapping yields nothing or a 0/1 code |
| Schema.IntLabelCode | analysis/biometric_analysis.py:197-202 | an int64 label renders as digits and maps to 1 or 0 exactly when its value is 1 or 0 |
| Schema.LabelValueAgrees | analysis/multi_dataset_analysis.py:76-81 | on every non-float column, the as-written mapping and the corrected one agree |
| Schema.FloatLabelUnmapped | analysis/biometric_analysis.py:197-202 | as written, no float64 label cell ever maps |
| Schema.MappedLabelsAsWritten | analysis/biometric_analysis.py:197-202 | the labels mapped as written, at most one per cell, each 0 or 1 |
| Schema.MappedLabels | analysis/multi_dataset_analysis.py:81 | the mapped labels are 0/1 values, at most one per cell |
| Schema.StatusColumnCoerced | analysis/biometric_analysis.py:67-78 | a "status" column of "1", "0" and a missing value becomes float64 `[1.0, 0.0, NaN]` |
| Schema.FloatLabelsLost | analysis/biometric_analysis.py:197-203 | on that coerced column nothing maps as written, while by value the cells map to [1, 0] |
| Schema.Outcome | analysis/biometric_analysis.py:192-203 | no label candidate means no analysis; otherwise the branch names the first candidate and is the counts branch exactly when fewer than half its labels map as written (after `astype(str)`), the binary branch otherwise |
| Schema.OutcomeCorrected | analysis/biometric_analysis.py:192-203 | the same branch with numeric labels mapped by value: counts exactly when fewer than half the labels map by value |
| Schema.MappedLabelsAgree | analysis/biometric_analysis.py:197-202 | on a text or int64 label column the as-written and by-value mappings give the same labels, so the two branches differ only on float64 columns |
| Schema.StatusOutcome | analysis/biometric_analysis.py:195-203 | the coerced "1", "0", missing status column takes the counts branch as written and the binary branch by value |
| Schema.CoercedStatusOutcome | analysis/biometric_analysis.py:195-203 | the float64 column [1.0, 0.0, NaN] takes the counts branch as written and the binary branch by value |
| Schema.BestK | analysis/biometric_analysis.py:252-258 | the chosen k lies in 2..6, scores a maximum, and every smaller k scores strictly less; no k is chosen exactly when every score is at most -1 |
| RiskData.Matching | analysis/advanced_risk_analysis.py:86 | the records of one group are exactly the records carrying its key |
| RiskData.PresentKeys | analysis/advanced_risk_analysis.py:86 | groupby drops null keys: the keys are exactly those some record carries |
| RiskData.AggregateMapSpec | analysis/advanced_risk_analysis.py:86-106 | the aggregate has a key exactly when some record carries it; its count is the number of its records with a pincode, and each age column is the sum of that band over its records |
| RiskData.AggregateMap | analysis/advanced_risk_analysis.py:86-106 | every aggregate has one sum per age column; its keys and sums are stated by AggregateMapKeys and AggregateMapGroup |
| RiskData.AggregateMapKeys | analysis/advanced_risk_analysis.py:86-106 | the grouped aggregate has a key exactly when some record carries that key |
| RiskData.AggregateMapGroup | analysis/advanced_risk_analysis.py:86-106 | a group's count is the number of its records with a pincode and each age column is that band's total over its records |
| RiskData.GroupByExact | analysis/advanced_risk_analysis.py:86-106 | the same, stated for each grouped table |
| RiskData.GroupBy | analysis/advanced_risk_analysis.py:86-106 | the grouped table is well formed: distinct keys, each with an aggregate and nothing else, one sum per age column |
| RiskData.Lookup | analysis/advanced_risk_analysis.py:119 | a key missing from a table reads as all zeros |
| RiskData.JoinSpec | analysis/advanced_risk_analysis.py:109-119 | the joined keys are distinct and are exactly the union of the three tables' keys; each row carries a table's aggregate when that table has the key, and zeros otherwise |
| RiskData.Join | analysis/advanced_risk_analysis.py:109-119 | one joined row per key of the union; its contents are stated by JoinSpec |
| RiskData.JoinShaped | analysis/advanced_risk_analysis.py:109-119 | every joined row has the column widths of its tables |
| RiskData.CompletionRate | analysis/advanced_risk_analysis.py:142-151 | the rate is 100 when there are no enrolments, and otherwise count/enrol·100; it is never negative and at most 100 when count ≤ enrol |
| RiskData.Ratio | analysis/advanced_risk_analysis.py:154-168 | a youth ratio is 0 when its total is 0 and otherwise part/total, which lies in [0,1] when part ≤ total |
| RiskData.FeaturesSpec | analysis/advanced_risk_analysis.py:127-178 | totals are the sums of their age bands and gaps are differences of counts; completion rates are 100 with no enrolments; youth ratios lie in [0,1]; month, quarter and weekday are in range; and the three flags hold exactly for {3,6,9,12}, {4,5,10,11} and {3,4,10,11} |
| RiskData.Derive | analysis/advanced_risk_analysis.py:127-178 | the quarter lies in 1..4, the weekday in 0..6 and the three flags are 0 or 1 |
| RiskData.WithFeature | analysis/advanced_risk_analysis.py:127-178 | engineering a row adds its features and keeps its key and aggregates |
| RiskData.WithFeatures | analysis/advanced_risk_analysis.py:127-178 | every row gains its features; keys, aggregates and row count are kept |
| RiskScore.Districts | analysis/advanced_risk_analysis.py:285 | the district groups are distinct and are exactly the districts of the rows |
| RiskScore.RowsIn | analysis/advanced_risk_analysis.py:285 | a district's group is exactly the rows of that district and is never empty |
| RiskScore.StatsOf | analysis/advanced_risk_analysis.py:285-299 | the aggregated statistics belong to the district, and its volatility is non-negative after the zero fill |
| RiskScore.Clip | analysis/advanced_risk_analysis.py:304 | clipping lands in [lo, hi] and leaves values already inside unchanged |
| RiskScore.GapRisk | analysis/advanced_risk_analysis.py:304 | the gap risk lies in [0,100]; it is 100 minus the completion inside that range and 0 at or above 100 |
| RiskScore.MigrationRisk | analysis/advanced_risk_analysis.py:307-310 | the migration risk lies in [0,100] and is 500·\|difference\| until it saturates at 100 when the difference reaches 0.2 |
| RiskScore.VolatilityRisk | analysis/advanced_risk_analysis.py:313-319 | the volatility risk lies in [0,100]; it is 0 when the maximum is 0 and v/max·100 otherwise |
| RiskScore.VolumePressure | analysis/advanced_risk_analysis.py:323-325 | the volume pressure lies in [0,100] |
| RiskScore.PercentRank | analysis/advanced_risk_analysis.py:322 | `rank(pct=True)` lies in (0,1] |
| RiskScore.PercentRankMonotone | analysis/advanced_risk_analysis.py:322 | a strictly larger total has a strictly larger percentile rank |
| RiskScore.CountsWithin | analysis/advanced_risk_analysis.py:322 | the values below and equal to x number at most the sample, and x occurs at least once |
| RiskScore.CountBelowGrows | analysis/advanced_risk_analysis.py:322 | a larger value has at least as many values below it |
| RiskScore.CompositeConvex | analysis/advanced_risk_analysis.py:328-333 | CERS is a convex combination: components in [lo, hi] give a CERS in [lo, hi], and the weights sum to 1 |
| RiskScore.Composite | analysis/advanced_risk_analysis.py:328-333 | CERS, the weighted sum of the four components; its range is stated by CompositeConvex |
| RiskScore.CategoryOf | analysis/advanced_risk_analysis.py:336-340 | the buckets are (0,30] Low, (30,50] Medium, (50,70] High and (70,100] Critical; every other value has no category |
| RiskScore.CategoryMonotone | analysis/advanced_risk_analysis.py:336-340 | a higher positive CERS never gets a lower category |
| RiskScore.Score | analysis/advanced_risk_analysis.py:301-340 | scoring keeps the district's statistics and gives a well-scored entry: the four components in [0,100], a volume rank in (0,1], CERS their weighted sum in [0,100] and the category its bucket; a district at a positive maximum volatility gets volatility risk 100 |
| RiskScore.MaxVolatility | analysis/advanced_risk_analysis.py:313 | the maximum is non-negative, bounds every volatility and is attained when there is a district |
| RiskScore.AllStats | analysis/advanced_risk_analysis.py:285-299 | one statistics entry per district, each being that district's statistics with a non-negative volatility |
| RiskScore.Unsorted | analysis/advanced_risk_analysis.py:301-340 | one scored entry per district, in district order |
| RiskScore.UnsortedSpec | analysis/advanced_risk_analysis.py:299-340 | every entry has all four components and CERS in [0,100] and a category consistent with its CERS; the most volatile district, when its volatility is positive, has volatility risk 100 |
| RiskScore.RiskTableEntries | analysis/advanced_risk_analysis.py:282-343 | every row of the sorted table is well scored and carries the statistics of a district present in the data |
| RiskScore.RiskTable | analysis/advanced_risk_analysis.py:282-343 | the scored table is ordered by non-increasing CERS; which districts it holds is stated by RiskTableDistricts and RiskTableOnePerDistrict |
| RiskScore.RiskTableDistricts | analysis/advanced_risk_analysis.py:285-343 | the table has a row for a district exactly when the data has that district |
| RiskScore.RiskTableOnePerDistrict | analysis/advanced_risk_analysis.py:285-343 | the table has exactly as many rows as the data has districts and no district twice, so its length is the district count |
| RiskScore.RiskTableMostVolatile | analysis/advanced_risk_analysis.py:313-317 | a district of maximal, positive volatility has volatility risk exactly 100 |
| RiskScore.UnsortedTopVolatility | analysis/advanced_risk_analysis.py:313-317 | before sorting, no district exceeds the largest volatility, one reaches it, and one at a positive maximum scores 100 |
| RiskScore.CountCategory | analysis/advanced_risk_analysis.py:351-354 | a category count never exceeds the number of districts |
| RiskScore.CategoryCountsPartition | analysis/advanced_risk_analysis.py:350-354 | the four category counts plus the uncategorised count equal the number of districts |
| RiskScore.Summarize | analysis/advanced_risk_analysis.py:349-359 | the category counts sum to at most the district total; the top 10 is a prefix of the table of length min(10, n); the average exists exactly when there is a district |
| RiskScore.SummaryAverageBounds | analysis/advanced_risk_analysis.py:355 | the average CERS of well-scored districts lies in [0,100] |
| Interventions.PriorityDistricts | analysis/advanced_risk_analysis.py:381-384 | the priority districts are exactly the Critical and High districts |
| Interventions.FilterCategoryCount | analysis/advanced_risk_analysis.py:381-382 | selecting one category keeps as many rows as that category's count |
| Interventions.PriorityCount | analysis/advanced_risk_analysis.py:381-402 | the priority list is as long as the Critical count plus the High count |
| Interventions.PriorityAboveFifty | analysis/advanced_risk_analysis.py:406 | every priority district has CERS in (50,100] |
| Interventions.InState | analysis/advanced_risk_analysis.py:387 | a state's group is exactly the priority districts of that state, and it is never empty |
| Interventions.Routes | analysis/advanced_risk_analysis.py:387-397 | one route per distinct state of the priority list and no state twice, each that state's grouping, ordered by non-increasing average risk |
| Interventions.RoutesFor | analysis/advanced_risk_analysis.py:387-397 | every route built is its state's grouping of the priority list, and every requested state gets its route |
| Interventions.RouteAverages | analysis/advanced_risk_analysis.py:387-389 | every state's average risk lies in [50,100] |
| Interventions.MobileVans | analysis/advanced_risk_analysis.py:399-410 | the districts to cover are the Critical plus High count; the kept states are the first min(10, routes) routes; the population reached is the priority districts' enrolment total |
| Interventions.Recent | analysis/advanced_risk_analysis.py:415 | the recent rows are exactly the rows dated on or after the cutoff |
| Interventions.AlertStats | analysis/advanced_risk_analysis.py:417-421 | the aggregated alert statistics belong to the district |
| Interventions.AlertCandidatesSpec | analysis/advanced_risk_analysis.py:417-426 | the alert candidates are exactly the recent districts with mean bio completion below 80 and more than 50 enrolments, each with its aggregated statistics |
| Interventions.AlertCandidates | analysis/advanced_risk_analysis.py:417-426 | every candidate kept needs an alert (mean bio completion below 80, more than 50 enrolments); the converse is AlertCandidatesSpec |
| Interventions.AlertRowsRecent | analysis/advanced_risk_analysis.py:414-421 | a candidate's statistics come only from its own rows dated on or after the cutoff |
| Interventions.Alerts | analysis/advanced_risk_analysis.py:428-435 | the alert target is the candidate count; the beneficiaries are 30% of the candidates' enrolments truncated to an integer; the campaign cost is 0.03 per enrolment |
| Interventions.VolatileDistricts | analysis/advanced_risk_analysis.py:439-441 | the volatile districts are exactly those with volatility risk above 70, in non-increasing enrolment order, as a permutation of the filter |
| Interventions.CapacityBuilding | analysis/advanced_risk_analysis.py:443-448 | the target is the number of volatile districts and the locations are the first min(20, volatile) rows of the ordered list |
| Interventions.ProposeFramework | analysis/advanced_risk_analysis.py:370-473 | the framework covers the Critical plus High districts, targets every alert candidate and every district of volatility risk above 70 |
| Interventions.InputsOf | analysis/advanced_risk_analysis.py:483-514 | a missing framework reads as all zeros; otherwise the districts to cover come from the mobile van plan |
| Interventions.Min | analysis/advanced_risk_analysis.py:521 | `min` is a lower bound of both arguments and equals one of them |
| Interventions.Economic | analysis/advanced_risk_analysis.py:483-565 | the ROI is 0 when nothing is spent, and a payback period is reported exactly when the savings are positive; the counts and the ROI floor are stated by EconomicCounts and EconomicReturn |
| Interventions.EconomicCounts | analysis/advanced_risk_analysis.py:495-531 | vans are ⌊districts/5⌋ and citizens at risk ⌊population/5⌋; the citizens helped lie between 0 and the citizens at risk and never exceed vans plus alerts; each van serves 31 500 citizens; the families impacted number at most 4.5 per citizen helped |
| Interventions.EconomicReturn | analysis/advanced_risk_analysis.py:517-565 | with a non-negative alert cost, savings and costs are non-negative, and with a positive cost the ROI is at least -100 |
| Interventions.RoiFloor | analysis/advanced_risk_analysis.py:536-537 | non-negative savings over a positive cost give an ROI of at least -100% |
| Interventions.EconomicWithoutFramework | analysis/advanced_risk_analysis.py:483-537 | without interventions the estimate has no vans, no citizens helped, no cost, ROI 0 and no payback period |
| Analyzer.Integrated | analysis/advanced_risk_analysis.py:86-119 | every integrated row has the column widths of the three tables |
| Analyzer.IntegratedKeys | analysis/advanced_risk_analysis.py:86-119 | the integrated table has a row for a key exactly when some record of one of the three tables carries it |
| Analyzer.KillerMoveAnalyzer.constructor | analysis/advanced_risk_analysis.py:38-44 | a new analyzer holds the three tables, no integrated table and no insights |
| Analyzer.KillerMoveAnalyzer.CreateIntegratedDataset | analysis/advanced_risk_analysis.py:81-123 | the stored integrated table is the engineered join of the three tables, and nothing else changes |
| Analyzer.KillerMoveAnalyzer.EngineerFeatures | analysis/advanced_risk_analysis.py:127-178 | every stored row gains its features in place, and nothing else changes |
| Analyzer.KillerMoveAnalyzer.CalculateExclusionRiskScore | analysis/advanced_risk_analysis.py:269-368 | on an engineered table (its feature columns present, as the method needs) returns and stores the scored table of the stored rows and stores its summary, so the summary matches the table; nothing else changes |
| Analyzer.KillerMoveAnalyzer.ProposeInterventionFramework | analysis/advanced_risk_analysis.py:370-473 | returns and stores the framework; when the table is the one summarised, the districts to cover equal the Critical plus High count of the stored summary |
| Analyzer.KillerMoveAnalyzer.QuantifyEconomicImpact | analysis/advanced_risk_analysis.py:475-583 | returns and stores the estimate computed from the stored framework, which is all zeros when none is stored |
| Analyzer.KillerMoveAnalyzer.RunCoreAnalysis | analysis/advanced_risk_analysis.py:969-980 | the three input tables are left unchanged; afterwards the stored table, scored districts, summary, framework and estimate are those computed from the three tables as passed in, and the summary and plan match each other |
| Insights.FirstMatch | analysis/generate_insights.py:45-50 | none exactly when no column name contains a key; otherwise the first such column in order |
| Insights.PickCol | analysis/generate_insights.py:45-50 | the early-return search loop returns the first match |
| Insights.Stamps | analysis/generate_insights.py:108-111 | the stamp dates are exactly the dates of the non-null timestamp cells |
| Insights.DistinctValues | analysis/generate_insights.py:76-77 | a distinct count never exceeds the row count |
| Insights.DateRange | analysis/generate_insights.py:73-74 | a date range exists exactly when the found datetime column has a timestamp; its ends are the earliest and the latest timestamp |
| Insights.KpisFor | analysis/generate_insights.py:53-90 | an empty table gives the default KPIs; otherwise rows and cols are the table's; the state and district columns are the first matches; the datetime column is the first datetime role; missing rate in [0,1]; both dates exist exactly when the datetime column has a timestamp, and are its earliest and latest; the state and district counts are at most the rows |
| Insights.PickedColumnsExist | analysis/generate_insights.py:68-69 | a picked state or district column is a column of the table |
| Insights.Shares | analysis/generate_insights.py:100 | each share is its count divided by the total, keyed as before |
| Insights.SharesSum | analysis/generate_insights.py:96-100 | the shares sum to the counted total over the divisor |
| Insights.StateShares | analysis/generate_insights.py:93-102 | no column or an absent column gives no shares; the shares are in non-increasing order |
| Insights.StateSharesOf | analysis/generate_insights.py:96-100 | the shares are empty exactly when the column has no cells, and otherwise are the value counts over the row count, sorted |
| Insights.TallySharesSumToOne | analysis/generate_insights.py:96-100 | the shares of any non-empty column sum to 1 |
| Insights.StateSharesSumToOne | analysis/generate_insights.py:96-102 | non-empty state shares sum to 1 |
| Insights.TallySharesCounts | analysis/generate_insights.py:100 | each share lies in (0,1] and is its value's count over the row count |
| Insights.StateSharesCounts | analysis/generate_insights.py:96-100 | each state share lies in (0,1] and is that state's count over the row count |
| Insights.StateSharesKeys | analysis/generate_insights.py:96 | a value (a missing one included) has a share exactly when it occurs in the column |
| Insights.SharesKeys | analysis/generate_insights.py:96-100 | a value has a share entry exactly when it is a key of the tally |
| Insights.TallySharesKeys | analysis/generate_insights.py:96-100 | after sorting, a value has a share entry exactly when it occurs among the cells |
| Insights.DailyVolume | analysis/generate_insights.py:105-114 | one entry per date; no column or an absent column gives none |
| Insights.StampsOfDatetime | analysis/generate_insights.py:108 | a datetime column has as many stamps as non-null cells |
| Insights.DailyVolumeSpec | analysis/generate_insights.py:105-114 | the daily counts sum to the number of non-null timestamps, the dates are exactly those of the timestamps, and each count is the number of timestamps on that date |
| Insights.VolatilityDenominator | analysis/generate_insights.py:203 | `max(1, mean)` is at least 1 and at least the mean, and equals the mean when that is at least 1 |
| Insights.DailyVolatility | analysis/generate_insights.py:203 | the volatility lies between 0 and the standard deviation |
| Insights.ShareIn | analysis/generate_insights.py:169 | a state missing from a share list counts 0; otherwise its listed share is used |
| Insights.Comparison | analysis/generate_insights.py:169-170 | the comparison has a row exactly for each state in either list, carrying the target share minus the enrolment share |
| Insights.WorstSpec | analysis/generate_insights.py:169-171 | the worst list holds min(10, comparison) rows of the comparison, in ascending delta order, and no row left out has a smaller delta than a kept one |
| Insights.Worst | analysis/generate_insights.py:169-171 | min(10, comparison) rows; their order and selection are stated by WorstSpec |
| Insights.DatasetInsight | analysis/generate_insights.py:238-247 | a dataset's result holds its KPIs; no state column gives no shares; an empty table gives no shares and no daily volume |
| Insights.TotalRows | analysis/generate_insights.py:152 | the total is at least each dataset's rows, and is 0 exactly when every dataset has no rows |
| Insights.ShareComparison | analysis/generate_insights.py:163-171 | the comparison is skipped exactly when a present dataset has no shares; each worst list exists exactly when enrolment and that dataset are present, and is their worst list |
| DatasetMetrics.SuccessRateOf | analysis/multi_dataset_analysis.py:81-83 | the rate is none exactly when no label maps; otherwise it lies in [0,1] and is the share of ones among the mapped labels |
| DatasetMetrics.SumOfBits | analysis/multi_dataset_analysis.py:83 | the sum of 0/1 labels is the number of ones |
| DatasetMetrics.SuccessRate | analysis/multi_dataset_analysis.py:73-83 | the corrected success rate: none without a label candidate present in the table, otherwise the rate of the labels mapped by value (none exactly when none maps, else the share of ones), in [0,1] |
| DatasetMetrics.SuccessRateAsWritten | analysis/multi_dataset_analysis.py:73-83 | the success rate as written: none without a label candidate present in the table, otherwise the rate of the labels mapped after `astype(str)` (none exactly when none maps, else the share of ones), in [0,1] |
| DatasetMetrics.HalfSuccess | analysis/multi_dataset_analysis.py:83 | the labels 1 and 0 have success rate 0.5 |
| DatasetMetrics.CoercedStatusRates | analysis/multi_dataset_analysis.py:76-83 | on the float64 column `[1.0, 0.0, NaN]` the rate as written is none and the corrected rate is 0.5 |
| DatasetMetrics.StatusSuccessRate | analysis/multi_dataset_analysis.py:76-83 | a "status" column of "1", "0" and a missing value, once coerced, has no success rate as written but a corrected rate of 0.5 |
| DatasetMetrics.TopValues | analysis/multi_dataset_analysis.py:86 | at most 10 distinct values in non-increasing count order, each a value of the column with its exact count; a value is left out only when 10 are kept, and then none kept is less frequent than it |
| DatasetMetrics.TopGeoMap | analysis/multi_dataset_analysis.py:84-87 | the dictionary has exactly the given names as keys, each with its column's top values |
| DatasetMetrics.BasicMetricsFor | analysis/multi_dataset_analysis.py:56-99 | an empty table gives the default metrics; missing rate in [0,1]; a success rate implies a label and lies in [0,1]; `has_label` holds exactly when a label candidate exists; at most two geo keys, each a geo candidate with at most 10 entries. The success rate is the corrected DatasetMetrics.SuccessRate, not the as-written one of lines 76-83 (see Findings) |
| DatasetMetrics.TopGeoShape | analysis/multi_dataset_analysis.py:84-87 | the top-values map keeps at most two geo columns, each a candidate, with at most 10 entries each |
| DatasetMetrics.CardAtMost | analysis/multi_dataset_analysis.py:85 | a list of names has no more distinct names than entries |
| DatasetMetrics.TopGeoKeys | analysis/multi_dataset_analysis.py:84-87 | `top_geo` has an entry exactly for the first two geo candidates, each its column's top values |
| DatasetMetrics.ComputeBasicMetrics | analysis/multi_dataset_analysis.py:56-99 | the procedure, with its loop filling `top_geo`, returns the specified metrics, with the corrected success rate as in BasicMetricsFor |
| DatasetMetrics.SuccessRateRows | analysis/multi_dataset_analysis.py:119-122 | the success-rate chart holds exactly the datasets that have a success rate |

## Left out

- CSV discovery and reading, the separator retries and `load_all_datasets` are not modelled. Date parsing with `dayfirst` is not modelled either: the date parser is a parameter of `Schema.CoerceColumn`. All of these are I/O or library parsing.
- Plotting, the HTML/PNG/Markdown/JSON writers, the executive report text, the report's Markdown assembly and `generate_presentation_dashboard.py` are left out. They are presentation.
- `discover_hidden_pattern` is left out. It consists of quantile thresholds, a t-test and group means for the report, and no modelled output depends on it.
- Library statistics are inputs. The per-district standard deviation of the biometric gap is a map passed to `CalculateExclusionRiskScore` (missing entries read as the zero fill). The daily standard deviation is passed to `Insights.DailyVolatility`. The silhouette score is the `score` function of `Schema.BestK`. The percentile rank (`rank(pct=True)`, average method) is computed, not given.
- KMeans, PCA, StandardScaler, RandomForest, the per-category success-rate charts and the hotspot top-10 listing of the report are left out. They are foreign numerics or presentation.
- Interventions.Recent: the 90-day window `max(date) - 90 days` is not computed. The cutoff date is a parameter, because the subtraction is timestamp arithmetic.
- The `seasonal_planning` intervention is left out, because it holds only constant text.
- The currency formatting and parsing of the economic figures are left out. The model keeps the numbers.
- IEEE floating point and `round(2)` are not modelled. Rates, shares and scores are exact reals, so CERS is not rounded before bucketing, and a CERS that rounding would move across a bucket edge may be categorised differently.
- int64 overflow of counts and sums is not modelled. Counts are unbounded naturals.
- The row order of pandas `groupby` and `merge` (sorted keys) is not modelled. The integrated table lists keys in first-seen order and is specified by its key set and contents.
- The order of equal keys after a sort is not modelled. `sort_values` may order ties differently from the insertion sort used here, but the results are permutations sorted by the same key either way.
- Insights.DailyVolume: the dates are in first-seen order rather than sorted. Only the keys and counts are specified.
- The `value_counts` order of equal counts is not specified either: Insights.StateShares and DatasetMetrics.TopValues state sortedness, not a tie order.
- DatasetMetrics.BasicMetricsFor: `success_rate` uses the corrected by-value label mapping (DatasetMetrics.SuccessRate), not the `astype(str)` mapping of `compute_basic_metrics`. On a float64 label column it therefore gives a rate where the code gives `None`. The as-written rate is DatasetMetrics.SuccessRateAsWritten, and the difference is the first Findings row.
- DatasetMetrics.ComputeBasicMetrics: the same corrected success rate, since it is proved equal to BasicMetricsFor.
- Timestamps are dates only, with no time of day. `dt.date` is the identity on them.
- `Text.Lower` lowercases ASCII letters only. Unicode case folding is not modelled.
- Schema.CoerceTypes requires a raw frame, in which every column has object dtype. This is the only kind of frame the scripts pass to `coerce_types`, since they read every CSV column as text.
- The `to_numeric` parser accepts only an optional `-`, digits and at most one `.`. Exponents, `inf` and `nan` text are not modelled, and cleaning removes the letters they need anyway.
- Missing values have no dtype-specific `NaN`/`NaT`/`None` distinction. Each is one `Null` cell.

## Findings

| source | as written | input that shows it | evidently intended | confidence | as-written member | corrected member |
|---|---|---|---|---|---|---|
| analysis/multi_dataset_analysis.py:76-83 | the label is rendered with `astype(str)` before the mapping. A label column that `coerce_types` turned into float64 renders as "1.0", "0.0" and "nan", and none of these is a mapping key, so the success rate is `None` | a "status" column read as "1", "0" and one missing value becomes float64 `[1.0, 0.0, NaN]`, because 2 of 3 cells parse | numeric labels 1 and 0 map by value, giving a success rate of 0.5 | not executed | DatasetMetrics.StatusSuccessRate | DatasetMetrics.SuccessRate |
| analysis/biometric_analysis.py:195-203 | `outcome_analysis` maps the same `astype(str)` rendering, so on such a column no label maps and it falls back to the counts branch | the same "status" column, coerced to float64 `[1.0, 0.0, NaN]` | two of the three labels map by value, so the binary analysis runs | not executed | Schema.StatusOutcome | Schema.OutcomeCorrected |
