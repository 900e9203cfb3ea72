/** The line chart: a monthly or daily view of the validated rows, switched
    by two handlers that recompute the chart from the cached rows. */
module LineChart {
  import opened Wrappers
  import opened Records
  import opened Aggregation
  import Localization
  import Text

  /** The two values the view selector offers. */
  datatype ViewMode = Monthly | Daily

  /** The monthly view's fixed labels; they do not follow the language. */
  const MONTHLY_LABELS: seq<string> :=
    ["Jan", "Feb", "Mar", "Apr", "May", "Jun", "Jul", "Aug", "Sep", "Oct", "Nov", "Dec"]

  /** The keys of the line chart's text table. */
  datatype LabelKey = Title | View | MonthlyOption | DailyOption | MonthPrompt | Loading

  /** The line chart's text table; every key has an entry in both languages. */
  function Label(key: LabelKey, lang: Localization.Language): (text: string)
    ensures |text| > 0
  {
    match key
    case Title => if lang == "EN" then "Temperature History in 2024" else "Historique des températures en 2024"
    case View => if lang == "EN" then "View" else "Vue"
    case MonthlyOption => if lang == "EN" then "Monthly" else "Mensuel"
    case DailyOption => if lang == "EN" then "Daily" else "Quotidien"
    case MonthPrompt => if lang == "EN" then "Month" else "Mois"
    case Loading => if lang == "EN" then "Loading..." else "Chargement..."
  }

  /** Every entry of the text table is translated: its English and French
      texts differ. */
  lemma LabelsTranslated(key: LabelKey)
    ensures Label(key, "EN") != Label(key, "FR")
  {
  }

  /** The monthly labels are the English month names cut to three letters, so
      they stand in calendar order. */
  lemma MonthlyLabelsAbbreviateMonthNames()
    ensures |MONTHLY_LABELS| == 12
    ensures forall k :: 0 <= k < 12 ==> MONTHLY_LABELS[k] == Localization.MonthNames("EN")[k][..3]
  {
  }

  /** What `updateChartData` publishes for the given rows, mode and month. */
  function ChartFor(rows: seq<ValidRow>, mode: ViewMode, filterMonth: int): (d: ChartData)
    ensures Aligned(d)
    ensures mode == Monthly ==> d.labels == MONTHLY_LABELS
    ensures mode == Daily ==> |d.labels| == |RowsOfMonth(rows, filterMonth)|
  {
    match mode
    case Monthly => MonthlySeries(rows, MONTHLY_LABELS)
    case Daily => DailySeries(rows, filterMonth)
  }

  /** In monthly mode the selected month plays no part. */
  lemma MonthlyIgnoresMonth(rows: seq<ValidRow>, m: int, m': int)
    ensures ChartFor(rows, Monthly, m) == ChartFor(rows, Monthly, m')
  {
  }

  /** `updateChartData`: in monthly mode fill the two 12-slot arrays in one
      pass; in daily mode filter the rows of the month and map each to a
      point. */
  method UpdateChartData(rows: seq<ValidRow>, mode: ViewMode, filterMonth: int) returns (data: ChartData)
    ensures data == ChartFor(rows, mode, filterMonth)
  {
    match mode
    case Monthly =>
      var monthlyMax, monthlyMin := MonthlyExtremes(rows);
      data := ChartData(MONTHLY_LABELS, monthlyMax, monthlyMin);
    case Daily =>
      data := DailySeries(rows, filterMonth);
  }

  /** Two January readings, day 1 (5, -2) and day 2 (8, 0). */
  const TWO_JANUARY_DAYS: seq<ValidRow> := [Row(1, 1, Num(5.0), Num(-2.0)), Row(1, 2, Num(8.0), Num(0.0))]

  /** The monthly view keeps the larger maximum and the smaller minimum of
      January and leaves the eleven other months, which have no rows, at the
      seeds. */
  lemma TwoJanuaryDaysMonthly()
    ensures ChartFor(TWO_JANUARY_DAYS, Monthly, 1).maxSeries[0] == Fin(8.0)
    ensures ChartFor(TWO_JANUARY_DAYS, Monthly, 1).minSeries[0] == Fin(-2.0)
    ensures forall k :: 1 <= k < 12 ==>
              ChartFor(TWO_JANUARY_DAYS, Monthly, 1).maxSeries[k] == NegInf &&
              ChartFor(TWO_JANUARY_DAYS, Monthly, 1).minSeries[k] == PosInf
  {
    var rows := TWO_JANUARY_DAYS;
    var first := rows[..1];
    assert rows[..|rows| - 1] == first && first[..0] == [];
    assert MonthlyMax(first, 1) == Fin(5.0);
    assert MonthlyMin(first, 1) == Fin(-2.0);
    var chart := ChartFor(rows, Monthly, 1);
    forall k | 1 <= k < 12
      ensures chart.maxSeries[k] == NegInf && chart.minSeries[k] == PosInf
    {
      MonthlyMaxIsMaximum(rows, k + 1);
      MonthlyMinIsMinimum(rows, k + 1);
    }
  }

  /** The daily view of January has one point per row, in row order; March,
      which has no rows, gives an empty chart. */
  lemma TwoJanuaryDaysDaily()
    ensures ChartFor(TWO_JANUARY_DAYS, Daily, 1) == ChartData(["1/1", "1/2"], [Fin(5.0), Fin(8.0)], [Fin(-2.0), Fin(0.0)])
    ensures ChartFor(TWO_JANUARY_DAYS, Daily, 3) == ChartData([], [], [])
  {
    var rows := TWO_JANUARY_DAYS;
    var first := rows[..1];
    assert rows[..|rows| - 1] == first && first[..0] == [];
    assert RowsOfMonth(first, 1) == first && RowsOfMonth(rows, 1) == rows;
    assert RowsOfMonth(first, 3) == [] && RowsOfMonth(rows, 3) == [];
    assert Text.IntToString(1) == "1" && Text.IntToString(2) == "2";
    assert DayLabel(rows[0]) == "1/1" && DayLabel(rows[1]) == "1/2";
  }

  /** The line chart component's state. */
  class TemperatureLineChart {
    var viewMode: ViewMode
    var monthFilter: int
    var data: Option<ChartData>
    var dailyRaw: seq<ValidRow>

    /** The chart on display, if any, is the one the current rows, mode and
        month call for. */
    ghost predicate Consistent()
      reads this
    {
      data.Some? ==> data.value == ChartFor(dailyRaw, viewMode, monthFilter)
    }

    constructor ()
      ensures viewMode == Monthly && monthFilter == 1
      ensures data == None && dailyRaw == []
      ensures Consistent()
    {
      viewMode := Monthly;
      monthFilter := 1;
      data := None;
      dailyRaw := [];
    }

    /** The `complete` callback of a fetch: validate the parsed rows, cache
        them, and chart them with the mode and month the fetching effect saw
        when it started. */
    method Complete(raw: seq<Row>, mode: ViewMode, filterMonth: int)
      modifies this
      ensures dailyRaw == Validate(raw)
      ensures data == Some(ChartFor(dailyRaw, mode, filterMonth))
      ensures viewMode == old(viewMode) && monthFilter == old(monthFilter)
      ensures mode == viewMode && filterMonth == monthFilter ==> Consistent()
    {
      var rows := Validate(raw);
      dailyRaw := rows;
      var chart := UpdateChartData(rows, mode, filterMonth);
      data := Some(chart);
    }

    /** `handleViewChange`: store the new mode and recompute at once from the
        cached rows. (The mode is also a dependency of the fetching effect,
        whose later completion is `Complete`.) */
    method HandleViewChange(selected: ViewMode)
      modifies this
      ensures viewMode == selected
      ensures monthFilter == old(monthFilter) && dailyRaw == old(dailyRaw)
      ensures data == Some(ChartFor(dailyRaw, selected, monthFilter))
      ensures Consistent()
    {
      viewMode := selected;
      var chart := UpdateChartData(dailyRaw, selected, monthFilter);
      data := Some(chart);
    }

    /** `handleMonthChange`: always store the new month; recompute at once
        from the cached rows only in daily mode. (The month is also a
        dependency of the fetching effect.) */
    method HandleMonthChange(selected: int)
      modifies this
      ensures monthFilter == selected
      ensures viewMode == old(viewMode) && dailyRaw == old(dailyRaw)
      ensures data == if viewMode == Daily then Some(ChartFor(dailyRaw, Daily, selected)) else old(data)
      ensures old(Consistent()) ==> Consistent()
    {
      ghost var previous := monthFilter;
      monthFilter := selected;
      if viewMode == Daily {
        var chart := UpdateChartData(dailyRaw, viewMode, selected);
        data := Some(chart);
      } else {
        MonthlyIgnoresMonth(dailyRaw, previous, selected);
      }
    }
  }
}
