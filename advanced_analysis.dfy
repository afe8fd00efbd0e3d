/**
  `AdvancedAnalyzer`: temporal features and counts, the risk-factor tiers,
  the anomaly and cluster passes around their (opaque) model fits, and the
  insights dictionary that strings them together on one frame.

  A model fit (`IsolationForest.fit_predict`, `KMeans.fit_predict`, each
  after `StandardScaler` and, for clustering, `PCA`) is a parameter mapping
  the feature matrix to a label per row, or to `None` when the library
  raises.
*/
module AdvancedAnalysis {
  import opened Wrappers
  import opened Calendar
  import opened Frames
  import opened Tallies
  import opened Demographics
  import opened Features

  // ---------------------------------------------------------------------
  // analyze_temporal_patterns

  /** The `daily_cases`, `weekly_cases` and `monthly_cases` dictionaries. */
  datatype TemporalCases = TemporalCases(dailyCases: Counts<int>, weeklyCases: Counts<int>, monthlyCases: Counts<int>)

  /** The names of the columns the temporal pass writes. */
  const TemporalColumns: set<string> := {"Date", "Day_of_Week", "Month", "Year", "Week"}

  /** The report: `None` is `{}`, returned without a Date column or when
      `pd.to_datetime` raises. */
  function TemporalPatternsOf(t: Table, parse: DateParser): Option<TemporalCases> {
    if !t.Has("Date") then None
    else
      match ToDatetime(t.Column("Date"), parse)
      case None => None
      case Some(dates) =>
        Some(TemporalCases(GroupSizes(DayKeys(dates)), GroupSizes(WeekKeys(dates)), GroupSizes(MonthKeys(dates))))
  }

  /** The frame with a converted Date column and the four feature columns. */
  function WithTemporalFeatures(t: Table, dates: seq<Cell>): Table
    requires |dates| == |t.rows|
  {
    t.WithColumn("Date", Datetime, dates)
     .WithColumn("Day_of_Week", FeatureDType(WeekdayKeys(dates)), IntCells(WeekdayKeys(dates)))
     .WithColumn("Month", FeatureDType(MonthKeys(dates)), IntCells(MonthKeys(dates)))
     .WithColumn("Year", FeatureDType(YearKeys(dates)), IntCells(YearKeys(dates)))
     .WithColumn("Week", UInt32, WeekCells(dates))
  }

  function TemporalPatternsState(t: Table, parse: DateParser): Table {
    if t.Has("Date") && ToDatetime(t.Column("Date"), parse).Some? then
      WithTemporalFeatures(t, ToDatetime(t.Column("Date"), parse).value)
    else t
  }

  method AnalyzeTemporalPatterns(df: Frame, parse: DateParser) returns (patterns: Option<TemporalCases>)
    requires df.Valid()
    modifies df
    ensures df.Valid()
    ensures patterns == TemporalPatternsOf(old(df.View()), parse)
    ensures df.View() == TemporalPatternsState(old(df.View()), parse)
  {
    if !df.View().Has("Date") {
      return None;
    }
    var converted := ToDatetime(df.View().Column("Date"), parse);
    if converted.None? {
      // to_datetime raises; the handler returns {}
      return None;
    }
    var dates := converted.value;
    df.SetColumn("Date", Datetime, dates);
    df.SetColumn("Day_of_Week", FeatureDType(WeekdayKeys(dates)), IntCells(WeekdayKeys(dates)));
    df.SetColumn("Month", FeatureDType(MonthKeys(dates)), IntCells(MonthKeys(dates)));
    df.SetColumn("Year", FeatureDType(YearKeys(dates)), IntCells(YearKeys(dates)));
    df.SetColumn("Week", UInt32, WeekCells(dates));
    patterns := Some(TemporalCases(GroupSizes(DayKeys(dates)), GroupSizes(WeekKeys(dates)), GroupSizes(MonthKeys(dates))));
  }

  /** The feature columns are row-aligned with the converted dates (the
      frame `TemporalPatternsState` leaves when the conversion succeeds):
      row i's `Day_of_Week` is its weekday 0 .. 6 (Monday 0), its `Month` is
      1 .. 12, its `Week` is its ISO week 1 .. 53 and its `Year` its year; no
      other column changes and no row is added or lost. */
  lemma TemporalFeatures(t: Table, dates: seq<Cell>)
    requires |dates| == |t.rows| && AllDatetime(dates)
    ensures var u := WithTemporalFeatures(t, dates);
      && |u.rows| == |t.rows|
      && u.Column("Date") == dates && u.Has("Date") && u.dtypes["Date"] == Datetime
      && IntKeys(u.Column("Day_of_Week")) == WeekdayKeys(dates)
      && IntKeys(u.Column("Month")) == MonthKeys(dates)
      && IntKeys(u.Column("Year")) == YearKeys(dates)
      && IntKeys(u.Column("Week")) == WeekKeys(dates)
      && (forall i :: 0 <= i < |dates| && dates[i].Some? ==>
            && WeekdayKeys(dates)[i].Some? && 0 <= WeekdayKeys(dates)[i].value <= 6
            && MonthKeys(dates)[i].Some? && 1 <= MonthKeys(dates)[i].value <= 12
            && WeekKeys(dates)[i].Some? && 1 <= WeekKeys(dates)[i].value <= 53)
      && (forall c :: c !in TemporalColumns ==> (u.Has(c) <==> t.Has(c)) && u.Column(c) == t.Column(c))
      && (forall c :: c !in TemporalColumns && t.Has(c) ==> u.dtypes[c] == t.dtypes[c])
  {
    FeaturesWritten(t, dates);
    FeaturesKeep(t, dates);
    FeatureRanges(dates);
  }

  /** The weekday, month and ISO week of every date are in range. */
  lemma FeatureRanges(dates: seq<Cell>)
    requires AllDatetime(dates)
    ensures forall i :: 0 <= i < |dates| && dates[i].Some? ==>
            && WeekdayKeys(dates)[i].Some? && 0 <= WeekdayKeys(dates)[i].value <= 6
            && MonthKeys(dates)[i].Some? && 1 <= MonthKeys(dates)[i].value <= 12
            && WeekKeys(dates)[i].Some? && 1 <= WeekKeys(dates)[i].value <= 53
  {
    forall i | 0 <= i < |dates| && dates[i].Some?
      ensures WeekdayKeys(dates)[i].Some? && MonthKeys(dates)[i].Some? && WeekKeys(dates)[i].Some?
    {
      assert dates[i].value.Stamp?;
    }
    KeyRanges(dates);
  }

  /** The written columns read back as the keys they were built from. */
  lemma FeaturesWritten(t: Table, dates: seq<Cell>)
    requires |dates| == |t.rows|
    ensures var u := WithTemporalFeatures(t, dates);
      && |u.rows| == |t.rows|
      && u.Column("Date") == dates && u.Has("Date") && u.dtypes["Date"] == Datetime
      && IntKeys(u.Column("Day_of_Week")) == WeekdayKeys(dates)
      && IntKeys(u.Column("Month")) == MonthKeys(dates)
      && IntKeys(u.Column("Year")) == YearKeys(dates)
      && IntKeys(u.Column("Week")) == WeekKeys(dates)
  {
    var t1 := t.WithColumn("Date", Datetime, dates);
    var t2 := t1.WithColumn("Day_of_Week", FeatureDType(WeekdayKeys(dates)), IntCells(WeekdayKeys(dates)));
    var t3 := t2.WithColumn("Month", FeatureDType(MonthKeys(dates)), IntCells(MonthKeys(dates)));
    var t4 := t3.WithColumn("Year", FeatureDType(YearKeys(dates)), IntCells(YearKeys(dates)));
    var u := t4.WithColumn("Week", UInt32, WeekCells(dates));
    assert WithTemporalFeatures(t, dates) == u;
    assert t4.Column("Date") == dates && t4.dtypes["Date"] == Datetime;
    assert t4.Column("Day_of_Week") == IntCells(WeekdayKeys(dates));
    assert t4.Column("Month") == IntCells(MonthKeys(dates));
  }

  /** The feature pass leaves every other column as it was. */
  lemma FeaturesKeep(t: Table, dates: seq<Cell>)
    requires |dates| == |t.rows|
    ensures var u := WithTemporalFeatures(t, dates);
      forall c :: c !in TemporalColumns ==>
        (u.Has(c) <==> t.Has(c)) && u.Column(c) == t.Column(c) && (t.Has(c) ==> u.dtypes[c] == t.dtypes[c])
  {
    var t1 := t.WithColumn("Date", Datetime, dates);
    var t2 := t1.WithColumn("Day_of_Week", FeatureDType(WeekdayKeys(dates)), IntCells(WeekdayKeys(dates)));
    var t3 := t2.WithColumn("Month", FeatureDType(MonthKeys(dates)), IntCells(MonthKeys(dates)));
    var t4 := t3.WithColumn("Year", FeatureDType(YearKeys(dates)), IntCells(YearKeys(dates)));
    assert WithTemporalFeatures(t, dates) == t4.WithColumn("Week", UInt32, WeekCells(dates));
  }

  /** What the temporal report says: `{}` exactly without a Date column or
      when `pd.to_datetime` raises, and then the frame is left as it is;
      otherwise each of the three counts adds up to the number of dated rows
      of the converted column, keys ascending.  That number is at most the
      number of values in the Date column, and equal to it when the column
      was already datetime. */
  lemma TemporalPatternsReport(t: Table, parse: DateParser)
    ensures TemporalPatternsOf(t, parse).Some? <==>
      t.Has("Date") && (AllDatetime(t.Column("Date")) || Converts(t.Column("Date"), parse))
    ensures TemporalPatternsOf(t, parse).None? ==> TemporalPatternsState(t, parse) == t
    ensures TemporalPatternsOf(t, parse).Some? ==>
      var r := TemporalPatternsOf(t, parse).value;
      var dated := Dated(TemporalPatternsState(t, parse).Column("Date"));
      && Total(r.dailyCases) == dated
      && Total(r.weeklyCases) == dated
      && Total(r.monthlyCases) == dated
      && dated <= Present(t.Column("Date"))
      && (AllDatetime(t.Column("Date")) ==> dated == Present(t.Column("Date")))
      && Ascending(r.dailyCases) && Ascending(r.weeklyCases) && Ascending(r.monthlyCases)
  {
    if t.Has("Date") && ToDatetime(t.Column("Date"), parse).Some? {
      var dates := ToDatetime(t.Column("Date"), parse).value;
      TemporalCounts(dates);
      ConvertedDates(t.Column("Date"), parse);
      FeaturesWritten(t, dates);
    }
  }

  // ---------------------------------------------------------------------
  // analyze_risk_factors

  /** `age_risk`: `high_risk` (Age < 5), `moderate_risk` (5 <= Age < 18) and
      `low_risk` (Age >= 18). */
  datatype AgeTiers = AgeTiers(highRisk: nat, moderateRisk: nat, lowRisk: nat)

  /** `district_risk`: the districts above the mean count and the rest. */
  datatype DistrictRisk = DistrictRisk(highRiskDistricts: Counts<Value>, lowRiskDistricts: Counts<Value>)

  /** The risk-factor report: `age_risk`, `gender_risk`, `district_risk` and
      `outcome_risk`, each absent when `None`. */
  datatype RiskFactors = RiskFactors(
    ageRisk: Option<AgeTiers>,
    genderRisk: Option<Counts<Value>>,
    districtRisk: Option<DistrictRisk>,
    outcomeRisk: Option<Counts<Value>>)

  const NoRiskFactors := RiskFactors(None, None, None, None)

  function RiskFactorsOf(t: Table): RiskFactors {
    if AgeUnusable(t) then NoRiskFactors
    else
      var ages := Numbers(t.Column("Age"));
      var districts := Tally(t.Column("District"));
      RiskFactors(
        if t.Has("Age") then Some(AgeTiers(HighRisk(ages), ModerateRisk(ages), LowRisk(ages))) else None,
        if t.Has("Gender") then Some(Tally(t.Column("Gender"))) else None,
        if t.Has("District") then Some(DistrictRisk(AboveMean(districts), AtMostMean(districts))) else None,
        if t.Has("Outcome") then Some(Tally(t.Column("Outcome"))) else None)
  }

  /** The pass only reads the frame. */
  method AnalyzeRiskFactors(df: Frame) returns (risk: RiskFactors)
    ensures risk == RiskFactorsOf(df.View())
  {
    risk := NoRiskFactors;
    if df.View().Has("Age") {
      if !IsNumeric(df.dtypes["Age"]) {
        // the comparison raises; the handler returns {}
        return NoRiskFactors;
      }
      var ages := Numbers(df.View().Column("Age"));
      risk := risk.(ageRisk := Some(AgeTiers(HighRisk(ages), ModerateRisk(ages), LowRisk(ages))));
    }
    if df.View().Has("Gender") {
      risk := risk.(genderRisk := Some(Tally(df.View().Column("Gender"))));
    }
    if df.View().Has("District") {
      var districtCounts := Tally(df.View().Column("District"));
      risk := risk.(districtRisk := Some(DistrictRisk(AboveMean(districtCounts), AtMostMean(districtCounts))));
    }
    if df.View().Has("Outcome") {
      risk := risk.(outcomeRisk := Some(Tally(df.View().Column("Outcome"))));
    }
  }

  /** What the risk-factor report says: nothing when Age is not numeric;
      otherwise the three age tiers add up to the rows with an age; the high-
      and low-risk districts split the observed districts, each with its own
      count, the high ones being those above the mean count, and the low ones
      are never empty when any district is observed; the gender and outcome
      counts add up to the rows with a value. */
  lemma RiskFactorsReport(t: Table)
    ensures AgeUnusable(t) ==> RiskFactorsOf(t) == NoRiskFactors
    ensures !AgeUnusable(t) && t.Has("Age") ==>
      var a := RiskFactorsOf(t).ageRisk.value;
      a.highRisk + a.moderateRisk + a.lowRisk == Present(Numbers(t.Column("Age")))
    ensures !AgeUnusable(t) && t.Has("District") ==>
      var counts := Tally(t.Column("District"));
      var d := RiskFactorsOf(t).districtRisk.value;
      && (forall e :: e in counts <==> e in d.highRiskDistricts || e in d.lowRiskDistricts)
      && (forall e :: !(e in d.highRiskDistricts && e in d.lowRiskDistricts))
      && (forall e :: e in d.highRiskDistricts <==>
            e in counts && e.1 as real > Total(counts) as real / |counts| as real)
      && Total(d.highRiskDistricts) + Total(d.lowRiskDistricts) == Present(t.Column("District"))
      && (Present(t.Column("District")) > 0 ==> |d.lowRiskDistricts| > 0)
    ensures !AgeUnusable(t) && t.Has("Gender") ==>
      Total(RiskFactorsOf(t).genderRisk.value) == Present(t.Column("Gender"))
    ensures !AgeUnusable(t) && t.Has("Outcome") ==>
      Total(RiskFactorsOf(t).outcomeRisk.value) == Present(t.Column("Outcome"))
  {
    if !AgeUnusable(t) {
      AgeTiersPartition(Numbers(t.Column("Age")));
      var counts := Tally(t.Column("District"));
      AboveMeanMeaning(counts);
      TiersPartition(counts, |counts|, Total(counts));
      if |counts| > 0 {
        AtMostMeanNonEmpty(counts);
      }
    }
  }

  // ---------------------------------------------------------------------
  // detect_anomalies and cluster_analysis

  /** `df[features].values`: one row of feature cells per frame row. */
  function FeatureMatrix(t: Table, features: seq<string>): (x: seq<seq<Cell>>)
    ensures |x| == |t.rows|
    ensures forall i :: 0 <= i < |x| ==> |x[i]| == |features|
  {
    seq(|t.rows|, i requires 0 <= i < |t.rows| => seq(|features|, j requires 0 <= j < |features| => t.Column(features[j])[i]))
  }

  /** A column of integer labels. */
  function LabelCells(labels: seq<int>): (r: seq<Cell>)
    ensures |r| == |labels|
    ensures forall i :: 0 <= i < |r| ==> r[i] == Some(Num(labels[i] as real)) && Fits(Int64, r[i]) && Fits(Int32, r[i])
  {
    seq(|labels|, i requires 0 <= i < |labels| => Some(Num(labels[i] as real)))
  }

  /** `col == -1` */
  function Flagged(col: seq<Cell>): (keep: seq<bool>)
    ensures |keep| == |col|
  {
    seq(|col|, i requires 0 <= i < |col| => col[i] == Some(Num(-1.0)))
  }

  /** The model labels of a frame, or `None` when there are no features, the
      fit raises, or its labels do not match the rows (the column assignment
      raises). */
  function FitLabels(t: Table, fit: seq<seq<Cell>> -> Option<seq<int>>): (r: Option<seq<int>>)
    ensures r.Some? ==> |r.value| == |t.rows|
  {
    var features := FeatureColumns(t.columns, t.dtypes);
    if |features| == 0 then None
    else
      var labels := fit(FeatureMatrix(t, features));
      if labels.None? || |labels.value| != |t.rows| then None else labels
  }

  /** The frame after `detect_anomalies`: an Int64 `Anomaly` column of the
      forest's labels when it ran. */
  function AnomalyState(t: Table, fit: seq<seq<Cell>> -> Option<seq<int>>): Table {
    match FitLabels(t, fit)
    case None => t
    case Some(labels) => t.WithColumn("Anomaly", Int64, LabelCells(labels))
  }

  /** The result of `detect_anomalies`: the labelled rows marked -1, or an
      empty frame. */
  function AnomaliesOf(t: Table, fit: seq<seq<Cell>> -> Option<seq<int>>): Table {
    match FitLabels(t, fit)
    case None => EmptyTable
    case Some(labels) =>
      var u := t.WithColumn("Anomaly", Int64, LabelCells(labels));
      u.Select(Flagged(u.Column("Anomaly")))
  }

  method DetectAnomalies(df: Frame, fit: seq<seq<Cell>> -> Option<seq<int>>) returns (anomalies: Table)
    requires df.Valid()
    modifies df
    ensures df.Valid()
    ensures anomalies == AnomaliesOf(old(df.View()), fit)
    ensures df.View() == AnomalyState(old(df.View()), fit)
  {
    var features := FeatureColumns(df.columns, df.dtypes);
    if |features| > 0 {
      var labels := fit(FeatureMatrix(df.View(), features));
      if labels.None? || |labels.value| != |df.rows| {
        // the fit or the assignment raises; the handler returns an empty frame
        return EmptyTable;
      }
      df.SetColumn("Anomaly", Int64, LabelCells(labels.value));
      return df.View().Select(Flagged(df.View().Column("Anomaly")));
    }
    return EmptyTable;
  }

  /** The positions whose label is -1. */
  function Outliers(labels: seq<int>): (keep: seq<bool>)
    ensures |keep| == |labels|
    ensures forall i :: 0 <= i < |labels| ==> (keep[i] <==> labels[i] == -1)
  {
    seq(|labels|, i requires 0 <= i < |labels| => labels[i] == -1)
  }

  /** After the labels are written, the `== -1` mask is the outlier mask and
      a flagged row is its input row with `Anomaly` = -1. */
  lemma AnomalyColumn(t: Table, labels: seq<int>)
    requires |labels| == |t.rows|
    ensures var u := t.WithColumn("Anomaly", Int64, LabelCells(labels));
      && Flagged(u.Column("Anomaly")) == Outliers(labels)
      && (forall i :: 0 <= i < |t.rows| && labels[i] == -1 ==> u.rows[i] == t.rows[i]["Anomaly" := Some(Num(-1.0))])
  {
    var u := t.WithColumn("Anomaly", Int64, LabelCells(labels));
    assert u.Column("Anomaly") == LabelCells(labels);
    forall i | 0 <= i < |labels|
      ensures Flagged(u.Column("Anomaly"))[i] == Outliers(labels)[i]
    {
      assert u.Column("Anomaly")[i] == Some(Num(labels[i] as real));
    }
  }

  /** The int64 label column fits its dtype. */
  lemma LabelCellsFit(labels: seq<int>)
    ensures forall i :: 0 <= i < |labels| ==> Fits(Int64, LabelCells(labels)[i])
  {
    forall i | 0 <= i < |labels| ensures Fits(Int64, LabelCells(labels)[i]) {
      assert (labels[i] as real).Floor == labels[i];
    }
  }

  /** The rows `detect_anomalies` keeps from a labelled frame: exactly the
      rows labelled -1, extended with `Anomaly` = -1, in their original order. */
  lemma FlaggedRows(t: Table, labels: seq<int>)
    requires |labels| == |t.rows|
    ensures var u := t.WithColumn("Anomaly", Int64, LabelCells(labels));
      var r := u.Select(Flagged(u.Column("Anomaly")));
      var idx := Kept(Outliers(labels));
      && |r.rows| == |idx| == multiset(labels)[-1]
      && (forall j :: 0 <= j < |idx| ==> r.rows[j] == t.rows[idx[j]]["Anomaly" := Some(Num(-1.0))])
      && (forall i :: 0 <= i < |t.rows| && labels[i] == -1 ==> t.rows[i]["Anomaly" := Some(Num(-1.0))] in r.rows)
  {
    var u := t.WithColumn("Anomaly", Int64, LabelCells(labels));
    var keep := Flagged(u.Column("Anomaly"));
    AnomalyColumn(t, labels);
    KeptCount(keep);
    FlaggedCount(labels);
    var r := u.Select(keep);
    var idx := Kept(keep);
    forall i | 0 <= i < |t.rows| && labels[i] == -1
      ensures t.rows[i]["Anomaly" := Some(Num(-1.0))] in r.rows
    {
      var j :| 0 <= j < |idx| && idx[j] == i;
      assert r.rows[j] == u.rows[i];
    }
  }

  /** The rows kept from a well-formed labelled frame form a well-formed frame. */
  lemma FlaggedValid(t: Table, labels: seq<int>)
    requires t.Valid() && |labels| == |t.rows|
    ensures var u := t.WithColumn("Anomaly", Int64, LabelCells(labels));
      u.Select(Flagged(u.Column("Anomaly"))).Valid()
  {
    LabelCellsFit(labels);
    WithColumnValid(t, "Anomaly", Int64, LabelCells(labels));
    var u := t.WithColumn("Anomaly", Int64, LabelCells(labels));
    SelectValid(u, Flagged(u.Column("Anomaly")));
  }

  /** Without an int64 or float64 column, or when the fit fails, the result is
      empty and the frame is left as it is.  Otherwise the result is a
      well-formed frame with the labelled frame's columns whose rows are
      exactly the input rows labelled -1, each extended with `Anomaly` = -1,
      in their original order: its j-th row comes from the j-th position of
      `Kept(Outliers(labels))`, which lists every -1 position once, ascending. */
  lemma AnomaliesReport(t: Table, fit: seq<seq<Cell>> -> Option<seq<int>>)
    requires t.Valid()
    ensures FitLabels(t, fit).None? ==> AnomaliesOf(t, fit) == EmptyTable && AnomalyState(t, fit) == t
    ensures |FeatureColumns(t.columns, t.dtypes)| == 0 ==> FitLabels(t, fit).None?
    ensures AnomaliesOf(t, fit).Valid()
    ensures FitLabels(t, fit).Some? ==>
      var labels := FitLabels(t, fit).value;
      var r := AnomaliesOf(t, fit);
      var idx := Kept(Outliers(labels));
      && r.columns == AnomalyState(t, fit).columns
      && |r.rows| == |idx| == multiset(labels)[-1]
      && (forall j :: 0 <= j < |idx| ==> r.rows[j] == t.rows[idx[j]]["Anomaly" := Some(Num(-1.0))])
      && (forall i :: 0 <= i < |t.rows| && labels[i] == -1 ==> t.rows[i]["Anomaly" := Some(Num(-1.0))] in r.rows)
  {
    match FitLabels(t, fit)
    case None => EmptyTableValid();
    case Some(labels) =>
      FlaggedRows(t, labels);
      FlaggedValid(t, labels);
  }

  /** The number of -1 flags is the number of -1 labels. */
  lemma {:induction false} FlaggedCount(labels: seq<int>)
    ensures multiset(seq(|labels|, i requires 0 <= i < |labels| => labels[i] == -1))[true] == multiset(labels)[-1]
  {
    if labels != [] {
      var n := |labels| - 1;
      FlaggedCount(labels[..n]);
      assert labels == labels[..n] + [labels[n]];
      assert seq(|labels|, i requires 0 <= i < |labels| => labels[i] == -1)
          == seq(n, i requires 0 <= i < n => labels[..n][i] == -1) + [labels[n] == -1];
    }
  }

  /** The frame after `cluster_analysis`: an Int32 `Cluster` column of the
      k-means labels when it ran. */
  function ClusterState(t: Table, fit: seq<seq<Cell>> -> Option<seq<int>>): Table {
    match FitLabels(t, fit)
    case None => t
    case Some(labels) => t.WithColumn("Cluster", Int32, LabelCells(labels))
  }

  /** `cluster_analysis` returns the very frame it was given, labelled or not. */
  method ClusterAnalysis(df: Frame, fit: seq<seq<Cell>> -> Option<seq<int>>) returns (clustered: Frame)
    requires df.Valid()
    modifies df
    ensures df.Valid()
    ensures clustered == df
    ensures df.View() == ClusterState(old(df.View()), fit)
  {
    var features := FeatureColumns(df.columns, df.dtypes);
    if |features| > 0 {
      var labels := fit(FeatureMatrix(df.View(), features));
      if labels.None? || |labels.value| != |df.rows| {
        // the fit or the assignment raises; the handler returns df
        return df;
      }
      df.SetColumn("Cluster", Int32, LabelCells(labels.value));
      return df;
    }
    return df;
  }

  /** A k-means fit with `n` clusters labels every row it accepts with a
      cluster in [0, n). */
  ghost predicate KMeansLabels(fit: seq<seq<Cell>> -> Option<seq<int>>, n: int) {
    forall x :: fit(x).Some? ==> forall l :: l in fit(x).value ==> 0 <= l < n
  }

  /** Without an int64 or float64 column, or when the fit fails, the frame is
      unchanged and has no new `Cluster` column; otherwise every row gets the
      fit's label, a cluster in [0, n), and nothing else changes. */
  lemma ClusterReport(t: Table, fit: seq<seq<Cell>> -> Option<seq<int>>, n: int)
    requires KMeansLabels(fit, n)
    ensures FitLabels(t, fit).None? ==> ClusterState(t, fit) == t
    ensures FitLabels(t, fit).Some? ==>
      var u := ClusterState(t, fit);
      && u.Has("Cluster") && u.dtypes["Cluster"] == Int32
      && |u.rows| == |t.rows|
      && (forall i :: 0 <= i < |t.rows| ==>
            u.Column("Cluster")[i] == Some(Num(FitLabels(t, fit).value[i] as real))
            && 0 <= FitLabels(t, fit).value[i] < n)
      && (forall c :: c != "Cluster" ==> (u.Has(c) <==> t.Has(c)) && u.Column(c) == t.Column(c))
  {
    if FitLabels(t, fit).Some? {
      var labels := FitLabels(t, fit).value;
      var x := FeatureMatrix(t, FeatureColumns(t.columns, t.dtypes));
      assert fit(x) == Some(labels);
      forall i | 0 <= i < |t.rows| ensures 0 <= labels[i] < n {
        assert labels[i] in fit(x).value;
      }
    }
  }

  // ---------------------------------------------------------------------
  // generate_insights

  /** The insights dictionary: `temporal_patterns`, `risk_factors`,
      `anomalies`, `clusters` and, when the frame has an Outcome column,
      `predictions`. */
  datatype Insights = Insights(
    temporalPatterns: Option<TemporalCases>,
    riskFactors: RiskFactors,
    anomalies: Table,
    clusters: Frame,
    predictions: Option<Frame>)
  {
    function Keys(): set<string> {
      {"temporal_patterns", "risk_factors", "anomalies", "clusters"}
        + (if predictions.Some? then {"predictions"} else {})
    }
  }

  /** The frame after the temporal, anomaly and cluster passes, in order. */
  function InsightsState(t: Table, parse: DateParser,
                         forest: seq<seq<Cell>> -> Option<seq<int>>, kmeans: seq<seq<Cell>> -> Option<seq<int>>): Table
  {
    ClusterState(AnomalyState(TemporalPatternsState(t, parse), forest), kmeans)
  }

  /** Every pass runs on the same frame, each seeing the columns written
      before it (the anomaly and cluster fits see the temporal features, the
      cluster fit the `Anomaly` column); no pass raises out of
      `generate_insights`.  `predict_outcomes` is not part of this model: its
      returned frame is `df` itself on every path, and what it writes into
      `df` is not modelled, so the frame is only specified without an
      Outcome column. */
  method GenerateInsights(df: Frame, parse: DateParser,
                          forest: seq<seq<Cell>> -> Option<seq<int>>, kmeans: seq<seq<Cell>> -> Option<seq<int>>)
    returns (insights: Insights)
    requires df.Valid()
    modifies df
    ensures df.Valid()
    ensures insights.temporalPatterns == TemporalPatternsOf(old(df.View()), parse)
    ensures insights.riskFactors == RiskFactorsOf(old(df.View()))
    ensures insights.anomalies == AnomaliesOf(TemporalPatternsState(old(df.View()), parse), forest)
    ensures insights.clusters == df
    ensures insights.predictions == if old(df.View()).Has("Outcome") then Some(df) else None
    ensures !old(df.View()).Has("Outcome") ==> df.View() == InsightsState(old(df.View()), parse, forest, kmeans)
  {
    ghost var t0 := df.View();
    var temporal := AnalyzeTemporalPatterns(df, parse);
    RiskAfterTemporal(t0, parse);
    var risk := AnalyzeRiskFactors(df);
    var anomalies := DetectAnomalies(df, forest);
    var clusters := ClusterAnalysis(df, kmeans);
    OutcomeKept(t0, parse, forest, kmeans);
    var predictions: Option<Frame> := None;
    if df.View().Has("Outcome") {
      predictions := Some(df);
    }
    insights := Insights(temporal, risk, anomalies, clusters, predictions);
  }

  /** No pass before `predict_outcomes` adds or removes an Outcome column. */
  lemma OutcomeKept(t: Table, parse: DateParser,
                    forest: seq<seq<Cell>> -> Option<seq<int>>, kmeans: seq<seq<Cell>> -> Option<seq<int>>)
    ensures InsightsState(t, parse, forest, kmeans).Has("Outcome") <==> t.Has("Outcome")
  {
    var t1 := TemporalPatternsState(t, parse);
    TemporalStateHas(t, parse, "Outcome");
    AnomalyStateHas(t1, forest, "Outcome");
    ClusterStateHas(AnomalyState(t1, forest), kmeans, "Outcome");
  }

  /** The temporal pass adds only its own columns. */
  lemma TemporalStateHas(t: Table, parse: DateParser, c: string)
    requires c !in TemporalColumns
    ensures TemporalPatternsState(t, parse).Has(c) == t.Has(c)
  {
    if t.Has("Date") && ToDatetime(t.Column("Date"), parse).Some? {
      FeaturesKeep(t, ToDatetime(t.Column("Date"), parse).value);
    }
  }

  /** The anomaly pass adds only the Anomaly column. */
  lemma AnomalyStateHas(t: Table, fit: seq<seq<Cell>> -> Option<seq<int>>, c: string)
    requires c != "Anomaly"
    ensures AnomalyState(t, fit).Has(c) == t.Has(c)
  {
    match FitLabels(t, fit) {
      case None =>
      case Some(labels) =>
        assert AnomalyState(t, fit) == t.WithColumn("Anomaly", Int64, LabelCells(labels));
    }
  }

  /** The cluster pass adds only the Cluster column. */
  lemma ClusterStateHas(t: Table, fit: seq<seq<Cell>> -> Option<seq<int>>, c: string)
    requires c != "Cluster"
    ensures ClusterState(t, fit).Has(c) == t.Has(c)
  {
    match FitLabels(t, fit) {
      case None =>
      case Some(labels) =>
        assert ClusterState(t, fit) == t.WithColumn("Cluster", Int32, LabelCells(labels));
    }
  }

  /** The key set: always the four passes, plus `predictions` exactly when
      the frame has an Outcome column. */
  lemma InsightsKeys(i: Insights, t: Table)
    requires i.predictions.Some? <==> t.Has("Outcome")
    ensures i.Keys() >= {"temporal_patterns", "risk_factors", "anomalies", "clusters"}
    ensures "predictions" in i.Keys() <==> t.Has("Outcome")
    ensures |i.Keys()| == if t.Has("Outcome") then 5 else 4
  {
  }

  /** The risk factors in the insights are those of the frame as given: the
      temporal pass only writes columns the risk pass does not read. */
  lemma RiskAfterTemporal(t: Table, parse: DateParser)
    ensures RiskFactorsOf(TemporalPatternsState(t, parse)) == RiskFactorsOf(t)
  {
    if t.Has("Date") && ToDatetime(t.Column("Date"), parse).Some? {
      var dates := ToDatetime(t.Column("Date"), parse).value;
      FeaturesKeep(t, dates);
      RiskSameInputs(t, WithTemporalFeatures(t, dates));
    }
  }

  /** Frames that agree on the Age, Gender, District and Outcome columns
      have the same risk factors. */
  lemma RiskSameInputs(t: Table, u: Table)
    requires forall c :: c in {"Age", "Gender", "District", "Outcome"} ==>
      (u.Has(c) <==> t.Has(c)) && u.Column(c) == t.Column(c) && (t.Has(c) ==> u.dtypes[c] == t.dtypes[c])
    ensures RiskFactorsOf(u) == RiskFactorsOf(t)
  {
    assert AgeUnusable(u) == AgeUnusable(t);
  }
}
