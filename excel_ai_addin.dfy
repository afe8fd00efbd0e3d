/**
  The four analysis sections of `ExcelAIAnalyzer` (surveillance, risk
  assessment, geographic and temporal analysis) and the report
  `analyze_data` assembles from them.

  Each section is a method on the shared `Frame`, like the Python methods
  that take `df` and write helper columns into it, and is specified by two
  functions of the frame it starts from: the report it returns (`...Of`)
  and the frame it leaves behind (`...State`).  A section that raises
  returns its empty report, all fields `None`, which is the `{}` its
  exception handler returns.
*/
module ExcelAddin {
  import opened Wrappers
  import opened Calendar
  import opened Frames
  import opened Tallies
  import opened Demographics
  import opened Features

  /** `Date.dt` raises unless the Date column has a datetime dtype. */
  predicate DateUnusable(t: Table) {
    t.Has("Date") && t.dtypes["Date"] != Datetime
  }

  /** `df[c].value_counts().to_dict()` when the column exists. */
  function Distribution(t: Table, c: string): (r: Option<Counts<Value>>)
    ensures r.Some? <==> t.Has(c)
    ensures r.Some? ==> Keys(r.value) == Observed(t.Column(c)) && Total(r.value) == Present(t.Column(c))
    ensures r.Some? ==> forall v :: Lookup(r.value, v) == multiset(t.Column(c))[Some(v)]
  {
    if t.Has(c) then Some(Tally(t.Column(c))) else None
  }

  // ---------------------------------------------------------------------
  // _analyze_surveillance_data

  /** The surveillance report; each field is the dictionary entry of the same
      name (`diagnosis_distribution`, `age_distribution`, ...), absent when
      `None`. */
  datatype Surveillance = Surveillance(
    diagnosisDistribution: Option<Counts<Value>>,
    ageDistribution: Option<Counts<Value>>,
    genderDistribution: Option<Counts<Value>>,
    outcomeDistribution: Option<Counts<Value>>,
    labResultDistribution: Option<Counts<Value>>)

  const NoSurveillance := Surveillance(None, None, None, None, None)

  function SurveillanceOf(t: Table): Surveillance {
    if AgeUnusable(t) then NoSurveillance
    else Surveillance(
      Distribution(t, "Diagnosis"),
      if t.Has("Age") then Some(AgeDistribution(t.Column("Age"))) else None,
      Distribution(t, "Gender"),
      Distribution(t, "Outcome"),
      Distribution(t, "Lab_Result"))
  }

  /** The frame after the section: an `Age_Group` column when Age is present
      and numeric. */
  function SurveillanceState(t: Table): Table {
    if t.Has("Age") && !AgeUnusable(t) then t.WithColumn("Age_Group", Category, AgeGroups(t.Column("Age")))
    else t
  }

  method AnalyzeSurveillanceData(df: Frame) returns (analysis: Surveillance)
    requires df.Valid()
    modifies df
    ensures df.Valid()
    ensures analysis == SurveillanceOf(old(df.View()))
    ensures df.View() == SurveillanceState(old(df.View()))
  {
    analysis := NoSurveillance;
    if df.View().Has("Diagnosis") {
      analysis := analysis.(diagnosisDistribution := Some(Tally(df.View().Column("Diagnosis"))));
    }
    if df.View().Has("Age") {
      if !IsNumeric(df.dtypes["Age"]) {
        // pd.cut raises; the handler returns {}
        return NoSurveillance;
      }
      df.SetColumn("Age_Group", Category, AgeGroups(df.View().Column("Age")));
      analysis := analysis.(ageDistribution := Some(CategoryCounts(df.View().Column("Age_Group"), AgeCategories)));
    }
    if df.View().Has("Gender") {
      analysis := analysis.(genderDistribution := Some(Tally(df.View().Column("Gender"))));
    }
    if df.View().Has("Outcome") {
      analysis := analysis.(outcomeDistribution := Some(Tally(df.View().Column("Outcome"))));
    }
    if df.View().Has("Lab_Result") {
      analysis := analysis.(labResultDistribution := Some(Tally(df.View().Column("Lab_Result"))));
    }
  }

  /** What the surveillance report says: nothing when Age is not numeric;
      otherwise one distribution per column present, each counting every
      non-missing value, and the age distribution listing all five brackets
      and counting exactly the ages in (0, 100]. */
  lemma SurveillanceReport(t: Table)
    ensures AgeUnusable(t) ==> SurveillanceOf(t) == NoSurveillance
    ensures !AgeUnusable(t) ==>
      && (SurveillanceOf(t).diagnosisDistribution.Some? <==> t.Has("Diagnosis"))
      && (SurveillanceOf(t).genderDistribution.Some? <==> t.Has("Gender"))
      && (SurveillanceOf(t).outcomeDistribution.Some? <==> t.Has("Outcome"))
      && (SurveillanceOf(t).labResultDistribution.Some? <==> t.Has("Lab_Result"))
      && (SurveillanceOf(t).ageDistribution.Some? <==> t.Has("Age"))
    ensures !AgeUnusable(t) && t.Has("Age") ==>
      && Keys(SurveillanceOf(t).ageDistribution.value) == set v | v in AgeCategories
      && Total(SurveillanceOf(t).ageDistribution.value) == Bracketed(Numbers(t.Column("Age")))
  {
    if !AgeUnusable(t) && t.Has("Age") {
      var d := AgeDistribution(t.Column("Age"));
      AgeDistributionTotal(t.Column("Age"));
      AgeDistributionKeys(d);
    }
  }

  lemma {:induction false} AgeDistributionKeys(d: Counts<Value>)
    requires |d| == 5 && forall i :: 0 <= i < 5 ==> d[i].0 == AgeCategories[i]
    ensures Keys(d) == set v | v in AgeCategories
  {
    assert Keys(d[4..]) == {d[4].0} by { assert d[4..][1..] == []; }
    assert Keys(d[3..]) == {d[3].0, d[4].0} by { assert d[3..][1..] == d[4..]; }
    assert Keys(d[2..]) == {d[2].0, d[3].0, d[4].0} by { assert d[2..][1..] == d[3..]; }
    assert Keys(d[1..]) == {d[1].0, d[2].0, d[3].0, d[4].0} by { assert d[1..][1..] == d[2..]; }
    assert (set v | v in AgeCategories) == {d[0].0, d[1].0, d[2].0, d[3].0, d[4].0};
  }

  /** Running the section on the frame it leaves behind gives the same report. */
  lemma SurveillanceRerun(t: Table)
    ensures SurveillanceOf(SurveillanceState(t)) == SurveillanceOf(t)
  {
  }

  // ---------------------------------------------------------------------
  // _assess_risk_factors

  /** `age_risk`: the rows with Age < 5 and with 5 <= Age < 18. */
  datatype AgeRisk = AgeRisk(highRiskAgeGroups: nat, moderateRiskAgeGroups: nat)

  /** The risk report: `age_risk`, `geographic_clusters.high_incidence_areas`
      and `temporal_clusters.high_incidence_weeks`. */
  datatype RiskAssessment = RiskAssessment(
    ageRisk: Option<AgeRisk>,
    highIncidenceAreas: Option<Counts<Value>>,
    highIncidenceWeeks: Option<Counts<int>>)

  const NoRisk := RiskAssessment(None, None, None)

  function RiskOf(t: Table): RiskAssessment {
    if AgeUnusable(t) || DateUnusable(t) then NoRisk
    else RiskAssessment(
      if t.Has("Age") then Some(AgeRisk(HighRisk(Numbers(t.Column("Age"))), ModerateRisk(Numbers(t.Column("Age"))))) else None,
      if t.Has("District") then Some(AboveMean(Tally(t.Column("District")))) else None,
      if t.Has("Date") then Some(AboveMean(GroupSizes(WeekKeys(t.Column("Date"))))) else None)
  }

  /** The frame after the section: a `Week` column of ISO weeks when Date is
      present and the section got that far. */
  function RiskState(t: Table): Table {
    if t.Has("Date") && !AgeUnusable(t) && !DateUnusable(t) then t.WithColumn("Week", UInt32, WeekCells(t.Column("Date")))
    else t
  }

  method AssessRiskFactors(df: Frame) returns (risk: RiskAssessment)
    requires df.Valid()
    modifies df
    ensures df.Valid()
    ensures risk == RiskOf(old(df.View()))
    ensures df.View() == RiskState(old(df.View()))
  {
    risk := NoRisk;
    if df.View().Has("Age") {
      if !IsNumeric(df.dtypes["Age"]) {
        // the comparison raises; the handler returns {}
        return NoRisk;
      }
      var ages := Numbers(df.View().Column("Age"));
      risk := risk.(ageRisk := Some(AgeRisk(HighRisk(ages), ModerateRisk(ages))));
    }
    if df.View().Has("District") {
      var districtCounts := Tally(df.View().Column("District"));
      risk := risk.(highIncidenceAreas := Some(AboveMean(districtCounts)));
    }
    if df.View().Has("Date") {
      if df.dtypes["Date"] != Datetime {
        // `.dt` raises; the handler returns {}
        return NoRisk;
      }
      df.SetColumn("Week", UInt32, WeekCells(df.View().Column("Date")));
      var weeklyCounts := GroupSizes(IntKeys(df.View().Column("Week")));
      risk := risk.(highIncidenceWeeks := Some(AboveMean(weeklyCounts)));
    }
  }

  /** What the risk report says: nothing when Age is not numeric or Date not
      a datetime; otherwise the two age tiers never exceed the rows with an
      age, a district is a high-incidence area exactly when its case count is
      above the mean count per district, and a week is a high-incidence week
      exactly when its count is above the mean count per week, every such
      week being an ISO week 1 .. 53. */
  lemma RiskReport(t: Table)
    ensures AgeUnusable(t) || DateUnusable(t) ==> RiskOf(t) == NoRisk
    ensures !AgeUnusable(t) && !DateUnusable(t) ==>
      && (RiskOf(t).ageRisk.Some? <==> t.Has("Age"))
      && (RiskOf(t).highIncidenceAreas.Some? <==> t.Has("District"))
      && (RiskOf(t).highIncidenceWeeks.Some? <==> t.Has("Date"))
    ensures !AgeUnusable(t) && !DateUnusable(t) && t.Has("Age") ==>
      RiskOf(t).ageRisk.value.highRiskAgeGroups + RiskOf(t).ageRisk.value.moderateRiskAgeGroups
        <= Present(Numbers(t.Column("Age")))
    ensures !AgeUnusable(t) && !DateUnusable(t) && t.Has("District") ==>
      var counts := Tally(t.Column("District"));
      forall e :: e in RiskOf(t).highIncidenceAreas.value <==>
        e in counts && e.1 as real > Total(counts) as real / |counts| as real
    ensures !AgeUnusable(t) && !DateUnusable(t) && t.Has("Date") ==>
      var counts := GroupSizes(WeekKeys(t.Column("Date")));
      && (forall e :: e in RiskOf(t).highIncidenceWeeks.value <==>
            e in counts && e.1 as real > Total(counts) as real / |counts| as real)
      && (forall e :: e in RiskOf(t).highIncidenceWeeks.value ==> 1 <= e.0 <= 53)
  {
    if !AgeUnusable(t) && !DateUnusable(t) {
      if t.Has("Age") {
        HighModerateBound(Numbers(t.Column("Age")));
      }
      if t.Has("District") {
        AboveMeanMeaning(Tally(t.Column("District")));
      }
      if t.Has("Date") {
        HighWeeks(t.Column("Date"));
      }
    }
  }

  /** The high-incidence weeks of a date column are its ISO weeks whose
      count is above the mean count per week. */
  lemma HighWeeks(col: seq<Cell>)
    ensures var counts := GroupSizes(WeekKeys(col));
      && (forall e :: e in AboveMean(counts) <==>
            e in counts && e.1 as real > Total(counts) as real / |counts| as real)
      && (forall e :: e in AboveMean(counts) ==> 1 <= e.0 <= 53)
  {
    var counts := GroupSizes(WeekKeys(col));
    AboveMeanMeaning(counts);
    TemporalCounts(col);
    forall e | e in AboveMean(counts) ensures 1 <= e.0 <= 53 {
      var j :| 0 <= j < |counts| && counts[j] == e;
      KeyAt(counts, j);
    }
  }

  // ---------------------------------------------------------------------
  // _analyze_geographic_distribution

  /** The geographic report: `district_distribution`, `district_outcomes` and
      `district_lab_results`, the last two keyed by (district, value). */
  datatype Geographic = Geographic(
    districtDistribution: Option<Counts<Value>>,
    districtOutcomes: Option<Counts<(Value, Value)>>,
    districtLabResults: Option<Counts<(Value, Value)>>)

  const NoGeographic := Geographic(None, None, None)

  /** `df.groupby([a, b]).size()`: rows missing either key are dropped. */
  function TwoKeyCounts(t: Table, a: string, b: string): Counts<(Value, Value)> {
    Tally(Pairs(t.Column(a), t.Column(b)))
  }

  function GeographicOf(t: Table): Geographic {
    if !t.Has("District") then NoGeographic
    else Geographic(
      Some(Tally(t.Column("District"))),
      if t.Has("Outcome") then Some(TwoKeyCounts(t, "District", "Outcome")) else None,
      if t.Has("Lab_Result") then Some(TwoKeyCounts(t, "District", "Lab_Result")) else None)
  }

  /** The section only reads the frame. */
  method AnalyzeGeographicDistribution(df: Frame) returns (geo: Geographic)
    ensures geo == GeographicOf(df.View())
  {
    geo := NoGeographic;
    if df.View().Has("District") {
      geo := geo.(districtDistribution := Some(Tally(df.View().Column("District"))));
      if df.View().Has("Outcome") {
        geo := geo.(districtOutcomes := Some(Tally(Pairs(df.View().Column("District"), df.View().Column("Outcome")))));
      }
      if df.View().Has("Lab_Result") {
        geo := geo.(districtLabResults := Some(Tally(Pairs(df.View().Column("District"), df.View().Column("Lab_Result")))));
      }
    }
  }

  /** The (district, outcome) counts of one district add up to at most that
      district's case count, and to exactly that count when no outcome is
      missing; the same holds for lab results. */
  lemma GeographicSubtotals(t: Table, district: Value)
    requires t.Has("District")
    ensures t.Has("Outcome") ==>
      SumFor(GeographicOf(t).districtOutcomes.value, district) <= Lookup(GeographicOf(t).districtDistribution.value, district)
    ensures t.Has("Outcome") && (forall i :: 0 <= i < |t.rows| ==> t.Column("Outcome")[i].Some?) ==>
      SumFor(GeographicOf(t).districtOutcomes.value, district) == Lookup(GeographicOf(t).districtDistribution.value, district)
    ensures t.Has("Lab_Result") ==>
      SumFor(GeographicOf(t).districtLabResults.value, district) <= Lookup(GeographicOf(t).districtDistribution.value, district)
    ensures t.Has("Lab_Result") && (forall i :: 0 <= i < |t.rows| ==> t.Column("Lab_Result")[i].Some?) ==>
      SumFor(GeographicOf(t).districtLabResults.value, district) == Lookup(GeographicOf(t).districtDistribution.value, district)
  {
    TwoKeySubtotals(t.Column("District"), t.Column("Outcome"), district);
    TwoKeySubtotals(t.Column("District"), t.Column("Lab_Result"), district);
  }

  // ---------------------------------------------------------------------
  // _analyze_temporal_patterns

  /** The temporal report: `daily_cases` (keyed by day number),
      `weekly_trends` (ISO week) and `monthly_trends` (month). */
  datatype Temporal = Temporal(
    dailyCases: Option<Counts<int>>,
    weeklyTrends: Option<Counts<int>>,
    monthlyTrends: Option<Counts<int>>)

  const NoTemporal := Temporal(None, None, None)

  /** The report, with `parse` pandas' conversion of a Date column that is
      not yet datetime. */
  function TemporalOf(t: Table, parse: DateParser): Temporal {
    if !t.Has("Date") then NoTemporal
    else
      match ToDatetime(t.Column("Date"), parse)
      case None => NoTemporal
      case Some(dates) =>
        Temporal(Some(GroupSizes(DayKeys(dates))), Some(GroupSizes(WeekKeys(dates))), Some(GroupSizes(MonthKeys(dates))))
  }

  /** The frame after the section: Date converted to datetime when the
      conversion does not raise. */
  function TemporalState(t: Table, parse: DateParser): Table {
    if t.Has("Date") && ToDatetime(t.Column("Date"), parse).Some? then
      t.WithColumn("Date", Datetime, ToDatetime(t.Column("Date"), parse).value)
    else t
  }

  method AnalyzeTemporalPatterns(df: Frame, parse: DateParser) returns (temporal: Temporal)
    requires df.Valid()
    modifies df
    ensures df.Valid()
    ensures temporal == TemporalOf(old(df.View()), parse)
    ensures df.View() == TemporalState(old(df.View()), parse)
  {
    temporal := NoTemporal;
    if df.View().Has("Date") {
      var converted := ToDatetime(df.View().Column("Date"), parse);
      if converted.None? {
        // to_datetime raises; the handler returns {}
        return NoTemporal;
      }
      df.SetColumn("Date", Datetime, converted.value);
      var dates := df.View().Column("Date");
      temporal := Temporal(Some(GroupSizes(DayKeys(dates))), Some(GroupSizes(WeekKeys(dates))), Some(GroupSizes(MonthKeys(dates))));
    }
  }

  /** What the temporal report says: nothing without a Date column or when
      `pd.to_datetime` raises; otherwise the daily, weekly and monthly counts
      each add up to the number of dated rows of the converted column, in
      ascending key order, with ISO weeks 1 .. 53 and months 1 .. 12.  That
      number is at most the number of values in the Date column, and equal
      to it when the column was already datetime. */
  lemma TemporalReport(t: Table, parse: DateParser)
    ensures TemporalOf(t, parse).dailyCases.Some? <==>
      t.Has("Date") && (AllDatetime(t.Column("Date")) || Converts(t.Column("Date"), parse))
    ensures TemporalOf(t, parse).dailyCases.Some? ==>
      var r := TemporalOf(t, parse);
      var dated := Dated(TemporalState(t, parse).Column("Date"));
      && r.weeklyTrends.Some? && r.monthlyTrends.Some?
      && Total(r.dailyCases.value) == dated
      && Total(r.weeklyTrends.value) == dated
      && Total(r.monthlyTrends.value) == dated
      && dated <= Present(t.Column("Date"))
      && (AllDatetime(t.Column("Date")) ==> dated == Present(t.Column("Date")))
      && Ascending(r.dailyCases.value) && Ascending(r.weeklyTrends.value) && Ascending(r.monthlyTrends.value)
      && (forall k :: k in Keys(r.weeklyTrends.value) ==> 1 <= k <= 53)
      && (forall k :: k in Keys(r.monthlyTrends.value) ==> 1 <= k <= 12)
  {
    if t.Has("Date") && ToDatetime(t.Column("Date"), parse).Some? {
      var dates := ToDatetime(t.Column("Date"), parse).value;
      TemporalCounts(dates);
      ConvertedDates(t.Column("Date"), parse);
    }
  }

  /** Running the section again on the frame it leaves behind gives the same
      report and leaves the frame as it is: the converted column is already
      datetime. */
  lemma TemporalRerun(t: Table, parse: DateParser)
    requires t.Valid()
    ensures TemporalOf(TemporalState(t, parse), parse) == TemporalOf(t, parse)
    ensures TemporalState(TemporalState(t, parse), parse) == TemporalState(t, parse)
  {
    if t.Has("Date") && ToDatetime(t.Column("Date"), parse).Some? {
      var dates := ToDatetime(t.Column("Date"), parse).value;
      var u := TemporalState(t, parse);
      WithColumnValid(t, "Date", Datetime, dates);
      assert u.Column("Date") == dates;
      WithColumnSame(u, "Date");
    }
  }

  // ---------------------------------------------------------------------
  // analyze_data

  /** The report of `analyze_data`, one field per key: `summary`,
      `statistics`, `trends` (the three helpers, whose results are opaque
      here), `surveillance_analysis`, `risk_assessment`,
      `geographic_analysis` and `temporal_analysis`. */
  datatype Insights<A> = Insights(
    summary: A,
    statistics: A,
    trends: A,
    surveillanceAnalysis: Surveillance,
    riskAssessment: RiskAssessment,
    geographicAnalysis: Geographic,
    temporalAnalysis: Temporal)

  /** The sections run in order on the same frame, each seeing the columns
      the ones before it wrote; the report is what each section would report
      on the frame `analyze_data` was given, since none of them reads a
      column another one writes. */
  method AnalyzeData<A>(df: Frame, parse: DateParser,
                        summarize: Table -> A, statistics: Table -> A, trends: Table -> A)
    returns (insights: Insights<A>)
    requires df.Valid()
    modifies df
    ensures df.Valid()
    ensures insights == Insights(summarize(old(df.View())), statistics(old(df.View())), trends(old(df.View())),
                                 SurveillanceOf(old(df.View())), RiskOf(old(df.View())),
                                 GeographicOf(old(df.View())), TemporalOf(old(df.View()), parse))
    ensures df.View() == TemporalState(RiskState(SurveillanceState(old(df.View()))), parse)
  {
    ghost var t0 := df.View();
    var summary := summarize(df.View());
    var stats := statistics(df.View());
    var trend := trends(df.View());
    var surveillance := AnalyzeSurveillanceData(df);
    var risk := AssessRiskFactors(df);
    var geo := AnalyzeGeographicDistribution(df);
    var temporal := AnalyzeTemporalPatterns(df, parse);
    SectionsIndependent(t0, parse);
    insights := Insights(summary, stats, trend, surveillance, risk, geo, temporal);
  }

  /** The columns a later section reads are untouched by the earlier ones. */
  lemma SectionsIndependent(t: Table, parse: DateParser)
    ensures RiskOf(SurveillanceState(t)) == RiskOf(t)
    ensures GeographicOf(RiskState(SurveillanceState(t))) == GeographicOf(t)
    ensures TemporalOf(RiskState(SurveillanceState(t)), parse) == TemporalOf(t, parse)
  {
    var s := SurveillanceState(t);
    var r := RiskState(s);
    SameColumn(t, s, "Age");
    SameColumn(t, s, "District");
    SameColumn(t, s, "Date");
    assert RiskOf(s) == RiskOf(t);
    SameColumn(s, r, "District");
    SameColumn(s, r, "Outcome");
    SameColumn(s, r, "Lab_Result");
    SameColumn(t, s, "Outcome");
    SameColumn(t, s, "Lab_Result");
    assert GeographicOf(r) == GeographicOf(t);
    SameColumn(s, r, "Date");
    assert TemporalOf(r, parse) == TemporalOf(t, parse);
  }

  /** Neither the surveillance nor the risk section touches a column other
      than the one it writes (`Age_Group`, `Week`). */
  lemma SameColumn(t: Table, u: Table, c: string)
    requires u == SurveillanceState(t) || u == RiskState(t)
    requires c != "Age_Group" && c != "Week"
    ensures u.Has(c) == t.Has(c) && u.Column(c) == t.Column(c)
    ensures t.Has(c) ==> u.dtypes[c] == t.dtypes[c]
  {
  }

  /** Overwriting a column with its own cells and dtype changes nothing. */
  lemma WithColumnSame(t: Table, name: string)
    requires t.Valid() && t.Has(name)
    ensures t.WithColumn(name, t.dtypes[name], t.Column(name)) == t
  {
    var u := t.WithColumn(name, t.dtypes[name], t.Column(name));
    assert u.rows == t.rows by {
      forall i | 0 <= i < |t.rows| ensures u.rows[i] == t.rows[i] {
        assert t.rows[i][name := t.Column(name)[i]] == t.rows[i];
      }
    }
  }
}
