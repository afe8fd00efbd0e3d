# Disease-surveillance analysers, modelled in Dafny

This project models the counting and tiering core of the hospital system's
Excel add-in. That core is two analysers that take a pandas DataFrame of case
records (Date, District, Age, Gender, Diagnosis, Outcome, Lab_Result, …) and
return dictionaries of counts. The project also models the pure helpers of
`utils.py`, which the web application uses on uploads and patient records.

- `ExcelAIAnalyzer` (module `ExcelAddin`) has four sections:
  - surveillance: a per-value count of Diagnosis, Gender, Outcome and
    Lab_Result, plus the Age brackets of `pd.cut`;
  - risk assessment: age tiers, districts above the mean count, and ISO weeks
    above the mean count;
  - geographic distribution: district counts, plus (district, outcome) and
    (district, lab result) counts;
  - temporal patterns: day, ISO-week and month counts.

  Each section is a method on the shared `Frame` object. As in the Python, it
  writes helper columns into the caller's frame (`Age_Group`, `Week`, a
  converted `Date`). It is specified by two functions of the frame it starts
  from: the report it returns and the frame it leaves behind. When a section
  raises, it returns `{}`; the model writes that as a report with every field
  `None`. `analyze_data` assembles the seven-key report.
- `AdvancedAnalyzer` (module `AdvancedAnalysis`) covers:
  - temporal feature columns and temporal counts;
  - the three-way age partition and the high/low district partition;
  - the gating and output shape of anomaly detection and clustering around
    their model fits;
  - the `generate_insights` dictionary.
- Shared building blocks, one module each:
  - the proleptic Gregorian calendar with ISO 8601 week numbers
    (`Calendar`);
  - the frame (`Frames`);
  - count tables as `value_counts()` and `groupby().size()` build them, and
    the mean-relative tiers (`Tallies`);
  - the age brackets and age tiers (`Demographics`);
  - per-row date features (`Features`).
- `Utils` models:
  - the upload-extension check;
  - the required-column check of a patient import;
  - patient ids;
  - ages;
  - the phone and e-mail validators.
- `Fixture` checks the analyser tests' sample data against the model.

Some behaviour comes from outside the repository, and the model takes it as
parameters:
- pandas' date parser;
- the fitted scikit-learn models;
- the clock.

Two behaviours of the code are easy to misread:
- Age brackets are right-closed bins (0,5], (5,12], (12,18], (18,60] and
  (60,100]. So 5 is in '0-5' and 12 in '6-12'. `age_distribution` counts
  rows, not distinct ages. On the sample data, '0-5' holds the six rows aged
  3, 4 or 5.
- `IsolationForest` is built without a `random_state`, and the analyser keeps
  one scaler, one PCA and one forest across calls. The model therefore treats
  each fit as an arbitrary labelling and claims no determinism for anomaly
  results.

## Model

| member | source | states |
|---|---|---|
| Calendar.DaysBeforeClosedForm | excel_ai_addin/advanced_analysis.py:75 | the recursive count of days before a year equals the Gregorian closed form (365 a year plus the leap days) |
| Calendar.YearOf | excel_ai_addin/advanced_analysis.py:75 | `dt.year` is the year whose January 1st is the last one not after the day, and it is at least 1 |
| Calendar.YearOfBounds | excel_ai_addin/advanced_analysis.py:75 | `dt.year` of a day is the year whose January 1st is the last one not after it, and the day of year is its offset from that date |
| Calendar.YearOfUnique | excel_ai_addin/advanced_analysis.py:75 | that year is the only year y with Jan1(y) <= d < Jan1(y+1) |
| Calendar.MonthOf | excel_ai_addin/advanced_analysis.py:74 | `dt.month` is the month 1..12 whose days of the year hold the date's day of the year |
| Calendar.Weekday | excel_ai_addin/advanced_analysis.py:73 | `dt.dayofweek` is in 0..6 |
| Calendar.Week1MondayFacts | excel_ai_addin/excel_ai_addin.py:145 | ISO week 1 starts on a Monday within three days of January 1st and holds the year's first Thursday |
| Calendar.MondaysApart | excel_ai_addin/excel_ai_addin.py:145 | two Mondays are a whole number of weeks apart |
| Calendar.IsoWeek | excel_ai_addin/excel_ai_addin.py:145 | `dt.isocalendar().week`, computed as CPython's `isocalendar` does, is always a week 1..53 |
| Calendar.IsoWeekRange | excel_ai_addin/excel_ai_addin.py:145 | the ISO week computation never leaves 1..53: a day before its year's week 1 falls in the previous year's last week, and late December days can fall in the next year's week 1 |
| Frames.Table.Column | excel_ai_addin/excel_ai_addin.py:98 | `df[c]` has one cell per row |
| Frames.Table.WithColumn | excel_ai_addin/excel_ai_addin.py:145 | `df[name] = cells` appends a new column or overwrites an existing one in place; the column gets those cells and that dtype, and no other column, dtype or row count changes |
| Frames.Frame.SetColumn | excel_ai_addin/advanced_analysis.py:73-76 | the in-place write leaves the frame well formed, and its new state is the old one with the column written |
| Frames.Frame.constructor | excel_ai_addin/advanced_analysis.py:168 | a frame object holds exactly the table it is built from |
| Frames.WithColumnValid | excel_ai_addin/excel_ai_addin.py:102 | writing a column whose cells fit its dtype keeps the frame well formed |
| Frames.Table.Select | excel_ai_addin/advanced_analysis.py:34 | `df[mask]` keeps the columns and dtypes and never adds rows |
| Frames.Kept | excel_ai_addin/advanced_analysis.py:34 | the positions a boolean mask selects: every set position once, no other, in ascending order |
| Frames.KeptCount | excel_ai_addin/advanced_analysis.py:34 | the mask selects as many positions as it has set flags |
| Frames.Filter | excel_ai_addin/advanced_analysis.py:34 | `df[mask]` keeps exactly the rows whose flag is set, each once, in their original order: the j-th kept row is the row at the j-th set position |
| Frames.SelectValid | excel_ai_addin/advanced_analysis.py:34 | a row filter of a well-formed frame is well formed |
| Frames.FeatureColumns | excel_ai_addin/advanced_analysis.py:23 | `select_dtypes(include=['int64','float64'])` holds exactly the int64 and float64 columns |
| Frames.EmptyTableValid | excel_ai_addin/advanced_analysis.py:35 | `pd.DataFrame()` is a well-formed frame |
| Frames.Numbers | excel_ai_addin/excel_ai_addin.py:132-133 | a numeric cell is present exactly when the source cell holds a number, and keeps that number |
| Frames.Days | excel_ai_addin/excel_ai_addin.py:186 | a day is present exactly when the source cell holds a timestamp, and keeps that day |
| Frames.ToDatetime | excel_ai_addin/excel_ai_addin.py:185 | `pd.to_datetime` returns a column that is already datetime as it is; any other column it converts as a whole, raising exactly when pandas' parser raises on it; missing cells stay NaT, timestamps stay as they are, every other value takes the parser's day or NaT, and the result fits the datetime dtype, so converting again changes nothing |
| Tallies.Bump | excel_ai_addin/excel_ai_addin.py:98 | one more occurrence of k adds one to k's count and to the total and keeps keys distinct |
| Tallies.Tally | excel_ai_addin/excel_ai_addin.py:98 | `value_counts()` gives each key the number of rows holding it; its keys are exactly the observed non-missing values, each once with a positive count, and the counts add up to the number of non-missing values |
| Tallies.TallyKeyIff | excel_ai_addin/excel_ai_addin.py:98 | a key is in the table exactly when some row holds it |
| Tallies.InsertCounts | excel_ai_addin/excel_ai_addin.py:146 | an ascending insert adds exactly one occurrence and keeps counts positive |
| Tallies.Insert | excel_ai_addin/excel_ai_addin.py:146 | inserting keeps the keys in ascending order and adds the key |
| Tallies.GroupSizes | excel_ai_addin/excel_ai_addin.py:146 | `groupby(key).size()` gives each key its number of rows, in ascending key order; its keys are exactly the observed values, and it adds up to the non-missing rows |
| Tallies.KeysWithin | excel_ai_addin/excel_ai_addin.py:190 | when every value lies in [lo, hi], so does every group key |
| Tallies.KeysCount | excel_ai_addin/excel_ai_addin.py:140 | a table with distinct keys has one entry per key, so its length is the number of keys the mean divides by |
| Tallies.AllPresent | excel_ai_addin/excel_ai_addin.py:132 | with no missing value, the count of non-missing values is the length |
| Tallies.Pairs | excel_ai_addin/excel_ai_addin.py:167 | `groupby([a, b])` keys rows by their (a, b) pair and drops a row missing either value |
| Tallies.TallySumFor | excel_ai_addin/excel_ai_addin.py:167 | the pair counts with first key x add up to the rows holding such a pair |
| Tallies.PairsWithBound | excel_ai_addin/excel_ai_addin.py:167-171 | the rows pairing x with a second value are at most the rows holding x, and exactly those when the second column has no missing value |
| Tallies.TwoKeySubtotals | excel_ai_addin/excel_ai_addin.py:163-171 | for each district, its (district, X) counts add up to at most its `value_counts` count, and to exactly that count when X has no missing value |
| Tallies.Above | excel_ai_addin/excel_ai_addin.py:140 | keeps exactly the entries whose count c has c·n > total |
| Tallies.AtMost | excel_ai_addin/advanced_analysis.py:119 | keeps exactly the entries whose count c has c·n <= total |
| Tallies.MeanComparison | excel_ai_addin/excel_ai_addin.py:140 | for n > 0, c > total/n holds exactly when c·n > total |
| Tallies.AboveMeanMeaning | excel_ai_addin/excel_ai_addin.py:140 | `counts[counts > counts.mean()]` holds exactly the entries whose count strictly exceeds the real mean |
| Tallies.TiersPartition | excel_ai_addin/advanced_analysis.py:118-119 | the above-mean and at-most-mean tiers split the table: their sizes and totals add up to the table's |
| Tallies.TotalAtLeast | excel_ai_addin/advanced_analysis.py:119 | a table whose counts are all at least b totals at least |t|·b |
| Tallies.ArgMin | excel_ai_addin/advanced_analysis.py:119 | picks an entry with the smallest count |
| Tallies.AtMostMeanNonEmpty | excel_ai_addin/advanced_analysis.py:119 | the low tier of a non-empty table is never empty, because the minimum is never above the mean |
| Tallies.AboveNone | excel_ai_addin/excel_ai_addin.py:140 | nothing is above a bound that no count exceeds |
| Tallies.EqualCountsTotal | excel_ai_addin/excel_ai_addin.py:140 | equal counts c total |t|·c |
| Tallies.EqualCountsNoneAbove | excel_ai_addin/excel_ai_addin.py:140 | when all counts are equal, nothing is above the mean |
| Tallies.AboveMeanExample | excel_ai_addin/excel_ai_addin.py:140 | counts 5, 5, 5, 15 have mean 7.5, and only the 15 is above it |
| Demographics.Cut | excel_ai_addin/excel_ai_addin.py:102-104 | `pd.cut` puts a value in bin i exactly when bins[i] < a <= bins[i+1], and in no bin exactly when it is at or below the first edge or above the last |
| Demographics.CutExactlyOne | excel_ai_addin/excel_ai_addin.py:102-104 | the bins are disjoint: a value is in bin i if and only if it lies in that right-closed interval |
| Demographics.Bracket | excel_ai_addin/excel_ai_addin.py:102-104 | an age gets a label exactly when it lies in (0, 100], and that label is one of the five |
| Demographics.BracketBoundaries | excel_ai_addin/excel_ai_addin.py:102-104 | 5 is '0-5', 5.5 and 12 are '6-12', 18 is '13-18', 60 is '19-60', 100 is '60+', and 0 and 100.5 get no bracket |
| Demographics.AgeGroups | excel_ai_addin/excel_ai_addin.py:102-104 | the `Age_Group` column is row-aligned, categorical, and holds only the five labels |
| Demographics.AgeTiersPartition | excel_ai_addin/advanced_analysis.py:104-108 | rows with Age < 5, 5 <= Age < 18 and Age >= 18 add up to exactly the non-missing ages |
| Demographics.HighModerateBound | excel_ai_addin/excel_ai_addin.py:131-134 | the high and moderate age tiers together never exceed the non-missing ages |
| Demographics.AgeGroupsPresent | excel_ai_addin/excel_ai_addin.py:102-104 | `Age_Group` holds a label exactly for the rows whose age is in (0, 100] |
| Demographics.CategoryCounts | excel_ai_addin/excel_ai_addin.py:105 | `value_counts()` of a categorical column holds every category once, each with its number of rows, zero counts included; the order of the entries is not modelled |
| Demographics.CategoryStep | excel_ai_addin/excel_ai_addin.py:105 | one more row raises the category total by one exactly when its value is a category |
| Demographics.CategoryTotal | excel_ai_addin/excel_ai_addin.py:105 | when every value is a category, the category counts add up to the non-missing values |
| Demographics.ZeroCounts | excel_ai_addin/excel_ai_addin.py:105 | with no rows every category count is zero |
| Demographics.AgeDistribution | excel_ai_addin/excel_ai_addin.py:105 | `age_distribution` holds each of the five labels once, with the number of rows in its bracket, zero counts included; the order of the entries is not modelled |
| Demographics.AgeDistributionTotal | excel_ai_addin/excel_ai_addin.py:102-105 | the age distribution adds up to the number of ages in (0, 100] |
| Features.DayKeys | excel_ai_addin/excel_ai_addin.py:186 | `dt.date` gives one key per row: the row's day, missing exactly where the date is NaT |
| Features.WeekKeys | excel_ai_addin/excel_ai_addin.py:190 | `dt.isocalendar().week` gives one key per row: the ISO week of the row's date, missing exactly where the date is NaT |
| Features.MonthKeys | excel_ai_addin/excel_ai_addin.py:194 | `dt.month` gives one key per row: the month of the row's date, missing exactly where the date is NaT |
| Features.WeekdayKeys | excel_ai_addin/advanced_analysis.py:73 | `dt.dayofweek` gives one key per row: the weekday 0..6 (Monday 0) of the row's date, missing exactly where the date is NaT |
| Features.YearKeys | excel_ai_addin/advanced_analysis.py:75 | `dt.year` gives one key per row: the year of the row's date, missing exactly where the date is NaT |
| Features.FeatureDType | excel_ai_addin/advanced_analysis.py:73-75 | the written feature column's dtype (int32, or float64 once a NaT is present) fits every written cell |
| Features.IntKeys | excel_ai_addin/advanced_analysis.py:82 | the group keys of a numeric column are row-aligned |
| Features.IntCells | excel_ai_addin/advanced_analysis.py:73-75 | a written integer feature column reads back as exactly the keys it was built from |
| Features.WeekCells | excel_ai_addin/excel_ai_addin.py:145 | the `Week` column fits nullable UInt32 and reads back as the ISO week of each row's date |
| Features.FewerPresent | excel_ai_addin/excel_ai_addin.py:185 | a column missing wherever another is missing has no more present values |
| Features.ConvertedDates | excel_ai_addin/excel_ai_addin.py:185 | `pd.to_datetime` fills in no missing cell, so the converted column has at most as many dated rows as the column had values, and exactly as many when it was already datetime |
| Features.SamePresence | excel_ai_addin/excel_ai_addin.py:186-194 | keys derived row by row from the dates are present in the same rows, so they have the same number of present values |
| Features.KeyRanges | excel_ai_addin/advanced_analysis.py:74-76 | every week key is in 1..53 and every month key in 1..12 |
| Features.TemporalCounts | excel_ai_addin/excel_ai_addin.py:186-195 | the daily, weekly and monthly counts each add up to the dated rows; week keys are in 1..53 and month keys in 1..12, so different years share a key |
| ExcelAddin.Distribution | excel_ai_addin/excel_ai_addin.py:97-98 | a distribution exists exactly when the column does; its keys are the observed values, each with its row count, adding up to the non-missing values |
| ExcelAddin.AnalyzeSurveillanceData | excel_ai_addin/excel_ai_addin.py:91-122 | the report and the new frame are those of the section's specification for the frame it was given; the frame stays well formed |
| ExcelAddin.SurveillanceReport | excel_ai_addin/excel_ai_addin.py:97-122 | `{}` when Age is not numeric; otherwise each distribution exists exactly when its column does, and the age distribution lists all five labels and adds up to the ages in (0, 100] |
| ExcelAddin.AgeDistributionKeys | excel_ai_addin/excel_ai_addin.py:105 | the age distribution's key set is exactly the five labels |
| ExcelAddin.SurveillanceRerun | excel_ai_addin/excel_ai_addin.py:102-105 | running the section again on the frame it leaves behind gives the same report |
| ExcelAddin.AssessRiskFactors | excel_ai_addin/excel_ai_addin.py:124-154 | the report and the new frame (with a `Week` column when Date is present) are those of the section's specification |
| ExcelAddin.HighWeeks | excel_ai_addin/excel_ai_addin.py:145-149 | the high-incidence weeks are exactly the ISO weeks whose count is above the mean count per week, each one of 1..53 |
| ExcelAddin.RiskReport | excel_ai_addin/excel_ai_addin.py:126-154 | `{}` when Age is not numeric or Date is not a datetime, even if other parts succeeded; otherwise each part exists exactly when its column does, the two age tiers do not exceed the non-missing ages, a district is high-incidence exactly when its count is above the mean, and so is a week, always one of 1..53 |
| ExcelAddin.AnalyzeGeographicDistribution | excel_ai_addin/excel_ai_addin.py:156-176 | the section only reads the frame and returns the district, (district, outcome) and (district, lab result) counts |
| ExcelAddin.GeographicSubtotals | excel_ai_addin/excel_ai_addin.py:161-171 | a district's outcome and lab-result pairs add up to at most its case count, and to exactly that count when that column has no missing value |
| ExcelAddin.AnalyzeTemporalPatterns | excel_ai_addin/excel_ai_addin.py:178-200 | the report and the frame (Date converted) are those of the section's specification |
| ExcelAddin.TemporalReport | excel_ai_addin/excel_ai_addin.py:183-200 | `{}` exactly without Date or when `pd.to_datetime` raises; otherwise the daily, weekly and monthly counts each add up to the dated rows of the converted column, keys ascending, weeks in 1..53 and months in 1..12; those rows are at most the Date values, and all of them when Date was already datetime |
| ExcelAddin.TemporalRerun | excel_ai_addin/excel_ai_addin.py:185 | running the section again gives the same report and leaves the frame unchanged |
| ExcelAddin.AnalyzeData | excel_ai_addin/excel_ai_addin.py:74-89 | the seven keys hold the three helpers' results and each section's report on the frame as given, and the frame ends with the writes of the surveillance, risk and temporal sections, in that order |
| ExcelAddin.SectionsIndependent | excel_ai_addin/excel_ai_addin.py:81-84 | no section reads a column that an earlier section writes |
| ExcelAddin.WithColumnSame | excel_ai_addin/excel_ai_addin.py:185 | writing a column back with its own cells and dtype changes nothing |
| AdvancedAnalysis.AnalyzeTemporalPatterns | excel_ai_addin/advanced_analysis.py:65-95 | the report and the frame (converted Date and four feature columns) are those of the pass's specification |
| AdvancedAnalysis.TemporalFeatures | excel_ai_addin/advanced_analysis.py:68-76 | for any converted Date column (datetime cells, one per row), `Day_of_Week` (0..6), `Month` (1..12), `Year` and `Week` (1..53) are row-aligned with the dates, Date becomes datetime, and every other column, dtype and the row count are unchanged |
| AdvancedAnalysis.FeaturesWritten | excel_ai_addin/advanced_analysis.py:70-76 | each written feature column reads back as the weekday, month, year or ISO week keys of the converted dates |
| AdvancedAnalysis.FeatureRanges | excel_ai_addin/advanced_analysis.py:73-76 | every dated row has a weekday in 0..6, a month in 1..12 and an ISO week in 1..53 |
| AdvancedAnalysis.FeaturesKeep | excel_ai_addin/advanced_analysis.py:70-76 | the feature writes leave every column outside Date, Day_of_Week, Month, Year and Week as it was |
| AdvancedAnalysis.TemporalPatternsReport | excel_ai_addin/advanced_analysis.py:68-95 | `{}` exactly without Date or when `pd.to_datetime` raises, and then the frame is unchanged; otherwise the daily, weekly and monthly counts each add up to the dated rows of the converted column, keys ascending; those rows are at most the Date values, and all of them when Date was already datetime |
| AdvancedAnalysis.AnalyzeRiskFactors | excel_ai_addin/advanced_analysis.py:97-129 | the pass only reads the frame and returns its specified risk factors |
| AdvancedAnalysis.RiskFactorsReport | excel_ai_addin/advanced_analysis.py:100-129 | `{}` when Age is not numeric; otherwise the three age tiers add up to the non-missing ages; high- and low-risk districts split the observed districts, are disjoint, keep their counts and add up to the non-missing districts; the high ones are exactly those above the mean, and the low ones are non-empty when any district is present; gender and outcome counts add up to their non-missing values |
| AdvancedAnalysis.FeatureMatrix | excel_ai_addin/advanced_analysis.py:25 | one feature row per frame row, with one cell per feature |
| AdvancedAnalysis.LabelCells | excel_ai_addin/advanced_analysis.py:32 | the label column holds each row's label as an integer |
| AdvancedAnalysis.Flagged | excel_ai_addin/advanced_analysis.py:34 | the mask `Anomaly == -1` is row-aligned |
| AdvancedAnalysis.FitLabels | excel_ai_addin/advanced_analysis.py:23-32 | a labelling, when there is one, has one label per row |
| AdvancedAnalysis.DetectAnomalies | excel_ai_addin/advanced_analysis.py:19-38 | the result and the frame (with `Anomaly` when the fit ran) are those of the pass's specification |
| AdvancedAnalysis.Outliers | excel_ai_addin/advanced_analysis.py:34 | the mask holds exactly at the rows labelled -1 |
| AdvancedAnalysis.AnomalyColumn | excel_ai_addin/advanced_analysis.py:32-34 | after the labels are written, `df['Anomaly'] == -1` is the outlier mask, and a flagged row is its input row with `Anomaly` = -1 |
| AdvancedAnalysis.LabelCellsFit | excel_ai_addin/advanced_analysis.py:32 | the written labels fit the int64 dtype |
| AdvancedAnalysis.FlaggedRows | excel_ai_addin/advanced_analysis.py:32-34 | the rows kept are exactly the input rows labelled -1, each with `Anomaly` = -1, each once and in their original order, as many as there are -1 labels |
| AdvancedAnalysis.FlaggedValid | excel_ai_addin/advanced_analysis.py:32-34 | the rows kept from a well-formed labelled frame form a well-formed frame |
| AdvancedAnalysis.AnomaliesReport | excel_ai_addin/advanced_analysis.py:23-38 | an empty frame, with the input left alone, when there is no int64/float64 column or the fit fails; otherwise a well-formed frame whose rows are exactly the input rows labelled -1, each extended with `Anomaly` = -1, every one of them once and in their original order |
| AdvancedAnalysis.FlaggedCount | excel_ai_addin/advanced_analysis.py:34 | the number of rows the -1 mask keeps is the number of -1 labels |
| AdvancedAnalysis.ClusterAnalysis | excel_ai_addin/advanced_analysis.py:40-63 | returns the very frame it was given, with `Cluster` written when the fit ran |
| AdvancedAnalysis.ClusterReport | excel_ai_addin/advanced_analysis.py:44-63 | an unchanged frame without `Cluster` when there are no features or the fit fails; otherwise every row gets its label, in [0, n_clusters), and nothing else changes |
| AdvancedAnalysis.GenerateInsights | excel_ai_addin/advanced_analysis.py:168-185 | the temporal and risk reports are those of the frame as given; the anomalies are those of the frame with temporal features; `clusters` is the frame itself; `predictions` exists exactly when there is an Outcome column |
| AdvancedAnalysis.OutcomeKept | excel_ai_addin/advanced_analysis.py:179 | no pass before the Outcome test adds or removes an Outcome column |
| AdvancedAnalysis.TemporalStateHas | excel_ai_addin/advanced_analysis.py:70-76 | the temporal pass adds or removes no column other than Date, Day_of_Week, Month, Year and Week |
| AdvancedAnalysis.AnomalyStateHas | excel_ai_addin/advanced_analysis.py:32 | the anomaly pass adds or removes no column other than Anomaly |
| AdvancedAnalysis.ClusterStateHas | excel_ai_addin/advanced_analysis.py:57 | the cluster pass adds or removes no column other than Cluster |
| AdvancedAnalysis.InsightsKeys | excel_ai_addin/advanced_analysis.py:171-181 | the keys are the four passes, plus `predictions` exactly when there is an Outcome column: 5 keys or 4 |
| AdvancedAnalysis.RiskAfterTemporal | excel_ai_addin/advanced_analysis.py:172-173 | risk factors computed after the temporal pass equal those of the frame as given |
| AdvancedAnalysis.RiskSameInputs | excel_ai_addin/advanced_analysis.py:103-124 | risk factors depend only on the Age, Gender, District and Outcome columns |
| Utils.Lower | utils.py:10 | lower-casing maps each character and keeps the length |
| Utils.LastDot | utils.py:10 | the position of the last '.', with no '.' after it, or none exactly when there is no '.' |
| Utils.AllowedFile | utils.py:7-10 | an allowed name has a '.', and 3 or 4 characters after the last one |
| Utils.LastDotUnique | utils.py:10 | a '.' with no '.' after it is the one `rsplit('.', 1)` splits at |
| Utils.AllowedFileIff | utils.py:7-10 | a name is allowed exactly when it has a '.' with no '.' after it, followed by csv, xlsx or xls in any case |
| Utils.AllowedFileOfName | utils.py:10 | only the last extension decides, whatever the base name |
| Utils.AllowedFileAccepts | utils.py:10 | "a.XLSX" (upper-case extension), ".csv" (empty base name) and "cases.2024.xls" (inner dots) are accepted |
| Utils.AllowedFileRejects | utils.py:10 | "csv", "a.csv.zip" and "a." are rejected |
| Utils.AllIn | utils.py:33 | `all(col in columns ...)` holds exactly when every required name is a column |
| Utils.ImportCheck | utils.py:32-36 | success returns the frame itself, failure the "Missing required columns" message |
| Utils.ImportCheckIff | utils.py:32-34 | the import fails exactly when one of patient_id, name, age, gender or contact is missing |
| Utils.Decimal | utils.py:42 | `%Y` is all digits, 1 to 4 of them by magnitude |
| Utils.Pad2 | utils.py:42 | `%m %d %H %M %S` are two digits |
| Utils.DecimalValue | utils.py:42 | the year's digits spell the year |
| Utils.Pad2Value | utils.py:42 | two padded digits spell the number |
| Utils.GeneratePatientId | utils.py:40-43 | an id is "PAT" followed by 11 to 14 digits: the unpadded year and five two-digit fields |
| Utils.PatientIdRoundTrip | utils.py:40-43 | from year 1000 on, an id is "PAT" plus 14 digits (17 characters) and reads back as the timestamp it was made from |
| Utils.PatientIdInjective | utils.py:40-43 | from year 1000 on, two ids are equal exactly when their timestamps are equal to the second |
| Utils.CalculateAge | utils.py:49-52 | the age is the year difference, or one less |
| Utils.AgeIsAnniversariesReached | utils.py:49-52 | the age is the number of birthdays reached by today, and is the only such number |
| Utils.AgeFacts | utils.py:49-52 | the age is the year difference minus one exactly when today's (month, day) is before the birth's; it is the exact difference on the birthday; it is never negative when the birth date is not after today |
| Utils.ValidatePhoneNumber | utils.py:54-58 | an accepted number has 9 to 17 characters (an optional '+', an optional country code and 9 to 15 digits) |
| Utils.Optional | utils.py:57 | an optional character can always be skipped |
| Utils.ValidatePhoneNumberIff | utils.py:54-58 | a number matches exactly when, after an optional '+', it is 9 to 15 digits, or 16 digits starting with 1 |
| Utils.PhoneAccepted | utils.py:54-58 | "+919876543210" and a 16-digit number starting with 1 are accepted |
| Utils.PhoneRejected | utils.py:54-58 | 16 digits starting with 2, 8 digits, and "98765-43210" are rejected |
| Utils.ValidateEmail | utils.py:60-64 | an accepted address holds an '@' and a '.' and has at least six characters |
| Utils.FirstIndex | utils.py:63 | the first position of a character, or none exactly when it does not occur |
| Utils.FirstIndexAt | utils.py:63 | an occurrence with none before it is the first one, the one the pattern's `@` must match |
| Utils.ValidateEmailIff | utils.py:60-64 | the matcher accepts exactly the strings of the pattern: non-empty local part, one '@', non-empty domain, '.', and two or more letters |
| Utils.SplitIsFirstAtLastDot | utils.py:63 | any way of matching the pattern has its '@' at the first '@' and its '.' at the last '.' |
| Utils.EmailAccepted | utils.py:63 | "a@b.co.uk" is accepted |
| Utils.EmailTopLevelRejected | utils.py:63 | "a@b.c1" and "a@b.c" are rejected |
| Utils.EmailAtRejected | utils.py:63 | "@b.com" (empty local part) and "a@@b.com" (two '@') are rejected |
| Fixture.CycleRounds | excel_ai_addin/tests/test_analyzer.py:20-21 | the ten-value pattern is, as a multiset, two rounds of the four keys plus a and b |
| Fixture.CycleMultiset | excel_ai_addin/tests/test_analyzer.py:20-21 | in the pattern a b c d a b c d a b, the four keys occur 3, 3, 2 and 2 times |
| Fixture.CycleObserved | excel_ai_addin/tests/test_analyzer.py:20-21 | the pattern's observed values are its four keys |
| Fixture.AboveMeanOfFour | excel_ai_addin/excel_ai_addin.py:140 | counts 3, 3, 2, 2 have mean 2.5, so exactly the two entries with count 3 are above it |
| Fixture.CycleTally | excel_ai_addin/tests/test_analyzer.py:20-21 | the value counts of the pattern, and its above-mean entries |
| Fixture.FixtureDistrictCounts | excel_ai_addin/tests/test_analyzer.py:20-21 | on the sample districts, Delhi 3, Mumbai 3, Bangalore 2 and Chennai 2; the high-incidence areas are exactly Delhi and Mumbai |
| Fixture.AgeListHigh | excel_ai_addin/tests/test_analyzer.py:22 | four sample ages are under 5 |
| Fixture.AgeListModerate | excel_ai_addin/tests/test_analyzer.py:22 | six sample ages are in [5, 18) |
| Fixture.FixtureAgeRisk | excel_ai_addin/tests/test_analyzer.py:22 | on the sample ages the high, moderate and low tiers are 4, 6 and 0 |

## Left out

- `read_excel_data`, `__init__` (NLTK, spaCy and transformers loading), `generate_report` and `_add_recommendations`: file I/O, model downloads and document rendering.
- ExcelAddin.AnalyzeData: as written, `analyze_data` raises AttributeError on every call. `_generate_summary`, `_calculate_statistics` and `_identify_trends` are defined nowhere in the class. The model takes them as opaque parameters and states only the key set and the sections' reports.
- `predict_outcomes`: it feeds ±1 outlier labels into `LabelEncoder.inverse_transform` and overwrites the object columns of the frame. Its writes are not modelled.
- AdvancedAnalysis.GenerateInsights: the final frame is specified only without an Outcome column, since `predict_outcomes` writes into the frame when there is one. With an Outcome column, the returned `predictions` is the frame object itself, as `predict_outcomes` returns `df` on every path.
- The model fits (`StandardScaler`, `PCA`, `KMeans`, `IsolationForest`): floating-point numerics in scikit-learn. Each fit is a parameter that maps the feature matrix to one label per row, or fails. The scaler, PCA and forest state the analyser keeps between calls is not modelled. So is the fit's nondeterminism: the forest has no `random_state`.
- AdvancedAnalysis.ClusterReport: that labels lie in [0, n_clusters) is a premise about the k-means fit, not derived from it.
- Dictionary order: `value_counts()` sorts by count, descending, and its order among equal counts depends on pandas. No count table of the model keeps that order. Tallies.Tally keeps first-appearance order, Demographics.CategoryCounts keeps category order, and Tallies.GroupSizes keeps ascending key order, which is `groupby`'s own order. The model proves nothing about `value_counts()` order. Two-key `groupby` order is not modelled either.
- Tallies.Tally: the count table is an ordered list of pairs, not a hash map; only its contents are specified.
- Frames.ToDatetime: pandas' parsing of a column that is not yet datetime is a parameter that sees the whole column. So format inference from the first value, and strings such as "" or "NaT" becoming NaT, are the parser's business, and the model promises nothing about which values parse. A parser result with a different length than the column is treated as a raise; pandas' own conversion always gives one value per cell. Time of day and time zones are not modelled; a timestamp is its calendar day.
- Categorical input columns: a Diagnosis, Gender, District, Outcome or Lab_Result column of category dtype is counted like an object column. pandas would list every category in `value_counts()`, and every category combination in a two-key `groupby` (with `observed=False`), zero counts included. The frame does not record a category list, so these tables hold only the observed values. Only `Age_Group`, which the analyser writes itself, is counted as a categorical.
- Dtypes: a column whose dtype is not one of the numeric dtypes (an object column of ints, say) is treated as making `Age < 5` raise. `.dt` on a column that is not datetime is treated as raising. Both send their section to its `{}` handler.
- ExcelAddin.AnalyzeTemporalPatterns: when `pd.to_datetime` raises on the Date column, it does so before the column is written, so the frame is unchanged in that case. This matches pandas' default `errors='raise'`.
- Utils.PatientIdRoundTrip: `%Y` writes years before 1000 without padding (as glibc does), so the 17-character length holds only from year 1000 on.
- Utils.DateTime: its validity check does not bound the day by the month's length. The clock always gives a real date, and the id format does not depend on it.
- Utils.Lower: ASCII lower-casing. For the extension test this agrees with Python's Unicode `str.lower`, because no other character lower-cases to an ASCII letter used there.
- Utils.ValidatePhoneNumberIff: ASCII digits only. Python's `\d` also matches other Unicode decimal digits. `$` also accepts one trailing newline, which is not modelled.
- Utils.ValidateEmailIff: `$` before one trailing newline is not modelled.
- `save_file`, `export_to_excel`, `get_patient_summary`, the file reading in `import_patient_data` and `format_currency`: file, database and locale I/O.
- The visualisation module, the Flask application, the Tkinter GUI, and the build, deploy and configuration scripts are not part of this model.
