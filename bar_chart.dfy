/** The bar chart: the monthly extremes of the validated rows, labelled with
    the month names of the current language. */
module BarChart {
  import opened Wrappers
  import opened Records
  import opened Aggregation
  import opened Localization

  /** The keys of the bar chart's text table. */
  datatype TextKey = Title | Loading

  /** The bar chart's text table; every key has an entry in both languages. */
  function LabelText(key: TextKey, lang: Language): (text: string)
    ensures |text| > 0
  {
    match key
    case Title =>
      if lang == "EN" then "Monthly Temperature Summary (Bar Chart)"
      else "Résumé mensuel des températures (graphique à barres)"
    case Loading => if lang == "EN" then "Loading..." else "Chargement..."
  }

  /** What the bar chart shows for the given rows in the given language. */
  function BarData(rows: seq<ValidRow>, lang: Language): (d: ChartData)
    ensures Aligned(d) && d.labels == MonthNames(lang)
  {
    MonthlySeries(rows, MonthNames(lang))
  }

  /** The language only relabels the bars: the plotted numbers are the same
      in English and in French. */
  lemma ValuesIgnoreLanguage(rows: seq<ValidRow>, lang: Language, lang': Language)
    ensures BarData(rows, lang).maxSeries == BarData(rows, lang').maxSeries
    ensures BarData(rows, lang).minSeries == BarData(rows, lang').minSeries
  {
  }

  /** The `complete` callback's computation: filter the parsed rows, fill two
      12-slot arrays in one pass, and label them with the month names. */
  method BuildBarData(raw: seq<Row>, lang: Language) returns (data: ChartData)
    ensures data == BarData(Validate(raw), lang)
  {
    var rows := Validate(raw);
    var monthlyMax, monthlyMin := MonthlyExtremes(rows);
    data := ChartData(MonthNames(lang), monthlyMax, monthlyMin);
  }

  /** The bar chart component's state: nothing until the first fetch
      completes. */
  class TemperatureBarChart {
    var data: Option<ChartData>

    constructor ()
      ensures data == None
    {
      data := None;
    }

    /** The `complete` callback of the fetch started for language `lang`. */
    method Complete(raw: seq<Row>, lang: Language)
      modifies this
      ensures data == Some(BarData(Validate(raw), lang))
    {
      var chart := BuildBarData(raw, lang);
      data := Some(chart);
    }
  }
}
