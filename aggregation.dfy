/** The two aggregations the charts plot: per-month extremes, seeded with
    -Infinity and +Infinity and folded with Math.max / Math.min over twelve
    slots, and the per-day points of one month. */
module Aggregation {
  import opened Records
  import Text

  /** A JavaScript number as the aggregation sees it: a finite reading or one
      of the two infinities the monthly slots start from. */
  datatype Ext = NegInf | PosInf | Fin(v: real)

  /** The numeric order on extended values. */
  predicate ExtLe(a: Ext, b: Ext) {
    a.NegInf? || b.PosInf? || (a.Fin? && b.Fin? && a.v <= b.v)
  }

  /** Math.max on two numbers that are never NaN: the larger of the two. */
  function ExtMax(a: Ext, b: Ext): (r: Ext)
    ensures ExtLe(a, r) && ExtLe(b, r)
    ensures r == a || r == b
  {
    if ExtLe(a, b) then b else a
  }

  /** Math.min on two numbers that are never NaN: the smaller of the two. */
  function ExtMin(a: Ext, b: Ext): (r: Ext)
    ensures ExtLe(r, a) && ExtLe(r, b)
    ensures r == a || r == b
  {
    if ExtLe(a, b) then a else b
  }

  const MONTHS := 12

  /** The value slot `m - 1` of `monthlyMax` holds after the rows have been
      folded in order: -Infinity, then Math.max with the `max_temp` of every
      row of month `m`. It is never +Infinity and bounds every such row. */
  function MonthlyMax(rows: seq<ValidRow>, m: int): (r: Ext)
    ensures r != PosInf
    ensures forall i :: 0 <= i < |rows| && rows[i].month == m ==> ExtLe(Fin(rows[i].maxTemp.value), r)
  {
    if rows == [] then NegInf
    else
      var init := rows[..|rows| - 1];
      var acc := MonthlyMax(init, m);
      var last := rows[|rows| - 1];
      assert forall i :: 0 <= i < |init| ==> rows[i] == init[i];
      if last.month == m then ExtMax(acc, Fin(last.maxTemp.value)) else acc
  }

  /** The value slot `m - 1` of `monthlyMin` holds: +Infinity, then Math.min
      with the `min_temp` of every row of month `m`. It is never -Infinity and
      is below every such row. */
  function MonthlyMin(rows: seq<ValidRow>, m: int): (r: Ext)
    ensures r != NegInf
    ensures forall i :: 0 <= i < |rows| && rows[i].month == m ==> ExtLe(r, Fin(rows[i].minTemp.value))
  {
    if rows == [] then PosInf
    else
      var init := rows[..|rows| - 1];
      var acc := MonthlyMin(init, m);
      var last := rows[|rows| - 1];
      assert forall i :: 0 <= i < |init| ==> rows[i] == init[i];
      if last.month == m then ExtMin(acc, Fin(last.minTemp.value)) else acc
  }

  /** `MonthlyMax` is the greatest `max_temp` among the rows of month `m`:
      -Infinity exactly when the month has no rows, otherwise a reading that
      some row of the month carries and that no row of the month exceeds. */
  lemma {:induction false} MonthlyMaxIsMaximum(rows: seq<ValidRow>, m: int)
    ensures MonthlyMax(rows, m) != PosInf
    ensures MonthlyMax(rows, m) == NegInf <==> forall i :: 0 <= i < |rows| ==> rows[i].month != m
    ensures forall i :: 0 <= i < |rows| && rows[i].month == m ==>
              ExtLe(Fin(rows[i].maxTemp.value), MonthlyMax(rows, m))
    ensures MonthlyMax(rows, m).Fin? ==>
              exists i :: 0 <= i < |rows| && rows[i].month == m && rows[i].maxTemp.value == MonthlyMax(rows, m).v
  {
    if rows != [] {
      var init, last := rows[..|rows| - 1], rows[|rows| - 1];
      MonthlyMaxIsMaximum(init, m);
      assert forall i :: 0 <= i < |init| ==> rows[i] == init[i];
      var acc := MonthlyMax(init, m);
      if last.month == m {
        var r := MonthlyMax(rows, m);
        if r == Fin(last.maxTemp.value) {
          assert rows[|rows| - 1].month == m && rows[|rows| - 1].maxTemp.value == r.v;
        } else {
          assert r == acc;
          var i :| 0 <= i < |init| && init[i].month == m && init[i].maxTemp.value == acc.v;
          assert rows[i].month == m && rows[i].maxTemp.value == r.v;
        }
      } else if acc.Fin? {
        var i :| 0 <= i < |init| && init[i].month == m && init[i].maxTemp.value == acc.v;
        assert rows[i].month == m;
      }
    }
  }

  /** `MonthlyMin` is the least `min_temp` among the rows of month `m`:
      +Infinity exactly when the month has no rows, otherwise a reading that
      some row of the month carries and that no row of the month undercuts. */
  lemma {:induction false} MonthlyMinIsMinimum(rows: seq<ValidRow>, m: int)
    ensures MonthlyMin(rows, m) != NegInf
    ensures MonthlyMin(rows, m) == PosInf <==> forall i :: 0 <= i < |rows| ==> rows[i].month != m
    ensures forall i :: 0 <= i < |rows| && rows[i].month == m ==>
              ExtLe(MonthlyMin(rows, m), Fin(rows[i].minTemp.value))
    ensures MonthlyMin(rows, m).Fin? ==>
              exists i :: 0 <= i < |rows| && rows[i].month == m && rows[i].minTemp.value == MonthlyMin(rows, m).v
  {
    if rows != [] {
      var init, last := rows[..|rows| - 1], rows[|rows| - 1];
      MonthlyMinIsMinimum(init, m);
      assert forall i :: 0 <= i < |init| ==> rows[i] == init[i];
      var acc := MonthlyMin(init, m);
      if last.month == m {
        var r := MonthlyMin(rows, m);
        if r == Fin(last.minTemp.value) {
          assert rows[|rows| - 1].month == m && rows[|rows| - 1].minTemp.value == r.v;
        } else {
          assert r == acc;
          var i :| 0 <= i < |init| && init[i].month == m && init[i].minTemp.value == acc.v;
          assert rows[i].month == m && rows[i].minTemp.value == r.v;
        }
      } else if acc.Fin? {
        var i :| 0 <= i < |init| && init[i].month == m && init[i].minTemp.value == acc.v;
        assert rows[i].month == m;
      }
    }
  }

  /** The body of the `forEach` callback: fold one row into slot
      `row.month - 1` of both arrays and leave the other eleven slots alone. */
  method AccumulateRow(monthlyMax: array<Ext>, monthlyMin: array<Ext>, row: ValidRow)
    requires monthlyMax.Length == MONTHS && monthlyMin.Length == MONTHS
    requires monthlyMax != monthlyMin
    modifies monthlyMax, monthlyMin
    ensures monthlyMax[..] ==
              old(monthlyMax[..])[row.month - 1 := ExtMax(old(monthlyMax[row.month - 1]), Fin(row.maxTemp.value))]
    ensures monthlyMin[..] ==
              old(monthlyMin[..])[row.month - 1 := ExtMin(old(monthlyMin[row.month - 1]), Fin(row.minTemp.value))]
  {
    var monthIndex := row.month - 1;
    monthlyMax[monthIndex] := ExtMax(monthlyMax[monthIndex], Fin(row.maxTemp.value));
    monthlyMin[monthIndex] := ExtMin(monthlyMin[monthIndex], Fin(row.minTemp.value));
  }

  /** Fills two fresh 12-slot arrays, seeded with -Infinity and +Infinity, in
      one pass over the rows; slot `k` ends up holding the extremes of month
      `k + 1`. */
  method MonthlyExtremes(rows: seq<ValidRow>) returns (maxs: seq<Ext>, mins: seq<Ext>)
    ensures |maxs| == MONTHS && |mins| == MONTHS
    ensures forall k :: 0 <= k < MONTHS ==> maxs[k] == MonthlyMax(rows, k + 1)
    ensures forall k :: 0 <= k < MONTHS ==> mins[k] == MonthlyMin(rows, k + 1)
  {
    var monthlyMax := new Ext[MONTHS](_ => NegInf);
    var monthlyMin := new Ext[MONTHS](_ => PosInf);
    var i := 0;
    while i < |rows|
      invariant 0 <= i <= |rows|
      invariant forall k :: 0 <= k < MONTHS ==> monthlyMax[k] == MonthlyMax(rows[..i], k + 1)
      invariant forall k :: 0 <= k < MONTHS ==> monthlyMin[k] == MonthlyMin(rows[..i], k + 1)
    {
      AccumulateRow(monthlyMax, monthlyMin, rows[i]);
      assert rows[..i + 1][..i] == rows[..i];
      i := i + 1;
    }
    assert rows[..|rows|] == rows;
    maxs, mins := monthlyMax[..], monthlyMin[..];
  }

  /** What the chart is handed: labels and two numeric series, positionally
      aligned (`Max Temp (°C)` and `Min Temp (°C)`). */
  datatype ChartData = ChartData(labels: seq<string>, maxSeries: seq<Ext>, minSeries: seq<Ext>)

  predicate Aligned(d: ChartData) {
    |d.labels| == |d.maxSeries| == |d.minSeries|
  }

  /** The monthly chart: the given twelve labels and, at position `k`, the
      extremes of month `k + 1`. */
  function MonthlySeries(rows: seq<ValidRow>, labels: seq<string>): (d: ChartData)
    requires |labels| == MONTHS
    ensures Aligned(d) && |d.maxSeries| == MONTHS
  {
    ChartData(labels, seq(MONTHS, k => MonthlyMax(rows, k + 1)), seq(MONTHS, k => MonthlyMin(rows, k + 1)))
  }

  /** The daily filter: the rows whose month is `m`, in input order. */
  function RowsOfMonth(rows: seq<ValidRow>, m: int): (f: seq<ValidRow>)
    ensures |f| <= |rows|
  {
    if rows == [] then []
    else
      var rest := RowsOfMonth(rows[..|rows| - 1], m);
      var last := rows[|rows| - 1];
      if last.month == m then rest + [last] else rest
  }

  /** The label of a daily point, the template `${Month}/${Day}`: cut at its
      first slash, it splits into the renderings of the row's month and day
      (which `Text.IntToString` reads back). */
  function DayLabel(r: Row): (text: string)
    ensures SlashIndex(text) < |text|
    ensures text[..SlashIndex(text)] == Text.IntToString(r.month)
    ensures text[SlashIndex(text) + 1..] == Text.IntToString(r.day)
  {
    var month, day := Text.IntToString(r.month), Text.IntToString(r.day);
    assert '/' !in month && '/' !in day;
    SlashIndexAfter(month, day);
    var text := month + "/" + day;
    assert text[..|month|] == month && text[|month| + 1..] == day;
    text
  }

  /** The daily chart of month `m`: one point per row of that month, with no
      merging of rows that share a day. */
  function DailySeries(rows: seq<ValidRow>, m: int): (d: ChartData)
    ensures Aligned(d) && |d.labels| == |RowsOfMonth(rows, m)|
  {
    var f := RowsOfMonth(rows, m);
    ChartData(seq(|f|, i requires 0 <= i < |f| => DayLabel(f[i])),
              seq(|f|, i requires 0 <= i < |f| => Fin(f[i].maxTemp.value)),
              seq(|f|, i requires 0 <= i < |f| => Fin(f[i].minTemp.value)))
  }

  /** The daily filter's test, as a function value. */
  function InMonth(m: int): Row -> bool {
    (r: Row) => r.month == m
  }

  /** The rows of month `m` are the order-preserving selection of exactly the
      input rows whose month is `m`. */
  lemma {:induction false} RowsOfMonthSelects(rows: seq<ValidRow>, m: int)
    ensures exists pos :: IsSelection(rows, InMonth(m), pos, RowsOfMonth(rows, m))
  {
    var keep := InMonth(m);
    if rows == [] {
      assert RowsOfMonth(rows, m) == [];
      assert IsSelection(rows, keep, [], RowsOfMonth(rows, m));
    } else {
      var init, last := rows[..|rows| - 1], rows[|rows| - 1];
      RowsOfMonthSelects(init, m);
      var pos :| IsSelection(init, keep, pos, RowsOfMonth(init, m));
      SelectionExtend(init, keep, pos, RowsOfMonth(init, m), last);
      assert init + [last] == rows;
      if keep(last) {
        assert IsSelection(rows, keep, pos + [|init|], RowsOfMonth(rows, m));
      } else {
        assert IsSelection(rows, keep, pos, RowsOfMonth(rows, m));
      }
    }
  }

  /** Point `j` of the daily chart of month `m` comes from the `j`-th row of
      month `m` in input order: its label is that row's `Month/Day`, its values
      are that row's readings, and every row of the month has its own point. */
  lemma DailySeriesFollowsRows(rows: seq<ValidRow>, m: int)
    ensures exists pos :: IsSelection(rows, InMonth(m), pos, RowsOfMonth(rows, m)) &&
              |pos| == |DailySeries(rows, m).labels| &&
              forall j :: 0 <= j < |pos| ==>
                && DailySeries(rows, m).labels[j] == DayLabel(rows[pos[j]])
                && DailySeries(rows, m).maxSeries[j] == Fin(rows[pos[j]].maxTemp.value)
                && DailySeries(rows, m).minSeries[j] == Fin(rows[pos[j]].minTemp.value)
  {
    RowsOfMonthSelects(rows, m);
    var f, d := RowsOfMonth(rows, m), DailySeries(rows, m);
    var pos :| IsSelection(rows, InMonth(m), pos, f);
    forall j | 0 <= j < |pos|
      ensures d.labels[j] == DayLabel(rows[pos[j]])
      ensures d.maxSeries[j] == Fin(rows[pos[j]].maxTemp.value)
      ensures d.minSeries[j] == Fin(rows[pos[j]].minTemp.value)
    {
      assert f[j] == rows[pos[j]];
    }
  }

  /** A daily label names its row's month and day unambiguously: two rows get
      the same label exactly when they share both month and day. */
  lemma DayLabelIdentifiesDate(a: Row, b: Row)
    ensures DayLabel(a) == DayLabel(b) <==> a.month == b.month && a.day == b.day
  {
    var ma, da := Text.IntToString(a.month), Text.IntToString(a.day);
    var mb, db := Text.IntToString(b.month), Text.IntToString(b.day);
    if DayLabel(a) == DayLabel(b) {
      SplitAtSlash(ma, da, mb, db);
      Text.IntToStringInjective(a.month, b.month);
      Text.IntToStringInjective(a.day, b.day);
    }
  }

  /** Position of the first '/' in `s`, or `|s|` when there is none. */
  function SlashIndex(s: string): (k: nat)
    ensures k <= |s|
  {
    if s == [] || s[0] == '/' then 0 else 1 + SlashIndex(s[1..])
  }

  lemma {:induction false} SlashIndexAfter(x: string, rest: string)
    requires '/' !in x
    ensures SlashIndex(x + "/" + rest) == |x|
  {
    if x != [] {
      SlashIndexAfter(x[1..], rest);
      assert (x + "/" + rest)[1..] == x[1..] + "/" + rest;
    }
  }

  /** Splitting `x/y` at its slash is unambiguous when neither side holds one. */
  lemma SplitAtSlash(x: string, y: string, x': string, y': string)
    requires '/' !in x && '/' !in y && '/' !in x' && '/' !in y'
    requires x + "/" + y == x' + "/" + y'
    ensures x == x' && y == y'
  {
    var s := x + "/" + y;
    SlashIndexAfter(x, y);
    SlashIndexAfter(x', y');
    assert x == s[..|x|] == x';
    assert y == s[|x| + 1..] == y';
  }
}
